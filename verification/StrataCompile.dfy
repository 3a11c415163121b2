/** Compiling the rewritten strata succeeds exactly if the rules that the query uses compile. */
module StrataCompile {
  import opened Wrappers
  import opened Exprs
  import opened Program
  import opened Datalog
  import opened Graphs
  import opened NamedGraph
  import opened Stratify
  import opened MagicSets
  import opened MagicCorrect
  import opened MagicRewrite
  import opened StrataMagic
  import opened StageReady
  import opened Compile
  import opened Reorder
  import opened StageCompiles
  import opened StageArities

  /** Every rule that the query uses compiles against the heads of the program. */
  ghost predicate QueryCompiles(cat: Catalog, prog: Prog) {
    forall k, l :: k in prog && Reachable(prog, k) && prog[k].Rules? && 0 <= l < |prog[k].rules| ==>
      Compiles(cat, ProgArities(cat, prog), prog[k].rules[l])
  }

  ghost predicate RulesCompile(cat: Catalog, arities: map<MagicSymbol, nat>, m: MagicProg) {
    forall s, r :: HasRule(m, s, r) ==> Compiles(cat, arities, r)
  }

  /** Compiles all rules of all strata; fails exactly if one cannot be. */
  method CompileStrata(cat: Catalog, arities: map<MagicSymbol, nat>, strata: seq<MagicProg>) returns (ok: bool)
    ensures ok <==> forall i :: 0 <= i < |strata| ==> RulesCompile(cat, arities, strata[i])
  {
    hide RulesCompile;
    for i := 0 to |strata|
      invariant forall k :: 0 <= k < i ==> RulesCompile(cat, arities, strata[k])
    {
      var fine := CompileStratum(cat, arities, strata[i]);
      if !fine {
        return false;
      }
    }
    return true;
  }

  method CompileStratum(cat: Catalog, arities: map<MagicSymbol, nat>, m: MagicProg) returns (ok: bool)
    ensures ok <==> RulesCompile(cat, arities, m)
  {
    hide Compiles;
    var names := ListKeys(m);
    for l := 0 to |names|
      invariant forall s, r :: s in names[..l] && HasRule(m, s, r) ==> Compiles(cat, arities, r)
    {
      if m[names[l]].Rules? {
        var rules := m[names[l]].rules;
        for j := 0 to |rules|
          invariant forall k :: 0 <= k < j ==> Compiles(cat, arities, rules[k])
        {
          var plan := CompileBody(cat, arities, rules[j]);
          if plan.Failure? {
            assert HasRule(m, names[l], rules[j]);
            return false;
          }
        }
      }
    }
    return true;
  }

  // ----- looking up a name -----

  /** An adorned head has a relation, with as many columns as in the program. */
  lemma NameFound(w: Rewriting, cat: Catalog, i: nat, s: MagicSymbol)
    requires Done(w) && i < |w.strata| && s in w.ads[i]
    ensures s in MagicArities(cat, w.outs) && s.inner in w.prog && MagicArities(cat, w.outs)[s] == ProgArities(cat, w.prog)[s.inner]
  {
    hide Normalised, Ordered, KeptWhileUsed, Reachable, Rewritten, AdornRules, IsRewritten, CallsDefined, Called, MagicArities, RulesWellFormed;
    DoneAt(w, i);
    HeadInM(w.prog, w.strata, w.lifetimes, w.disabled, i, w.ads[i], w.outs[i], s);
    ArityAt(w, cat, i, s);
    assert StratumDone(w.strata, w.disabled, i, w.ads[i], w.outs[i]);
    assert InStratum(w.strata, s.inner, i);
    if w.ads[i][s].Rules? {
      assert w.outs[i][s].Rules?;
      var r := w.outs[i][s].rules[0];
      assert HasRule(w.outs[i], s, r);
      RuleLength(w, i, s, r);
    } else {
      FixedKept(w.ads[i], w.outs[i], s);
    }
  }

  lemma FixedKept(ad: MagicProg, m: MagicProg, s: MagicSymbol)
    requires IsRewritten(ad, m) && s in ad && ad[s].Fixed?
    ensures s in m && m[s] == ad[s]
  {
    hide EmittedBySome;
  }

  /** A name in an adorned body is found exactly if the name in the rule is, with the same number of columns. */
  lemma Lookup(w: Rewriting, cat: Catalog, i: nat, h: MagicSymbol, idx: nat, ar: InlineRule<MagicSymbol>, r: InlineRule<Symbol>, j: nat)
    requires Done(w) && ComesFrom(w, i, h, idx, ar, r) && j < |r.body| && (r.body[j].Rule? || r.body[j].NegatedRule?)
    ensures ar.body[j].Rule? || ar.body[j].NegatedRule?
    ensures var s, f := ar.body[j].name, r.body[j].name;
            && (s in MagicArities(cat, w.outs) <==> f in w.prog)
            && (f in w.prog ==> MagicArities(cat, w.outs)[s] == ProgArities(cat, w.prog)[f])
  {
    hide Done, MagicArities, ProgArities, RulesWellFormed, OwnRule, HeadBound, SeenBefore, Rewritten;
    var s, f := ar.body[j].name, r.body[j].name;
    AdornedNames(r, HeadBound(r.head, h.MagicAdornment()), Rewritten(w.strata, w.disabled, i), j);
    if f in w.prog {
      var at := NameDefined(w, i, h, idx, ar, r, j);
      NameFound(w, cat, at, s);
    } else if s in MagicArities(cat, w.outs) {
      var at := AritiesFrom(cat, w.outs, s);
      DoneSize(w);
      KeyInStratum(w, at, s);
      PlacedInProg(w, at, f);
    }
  }

  lemma AdornedNames(r: InlineRule<Symbol>, seen: set<Symbol>, rw: set<Symbol>, j: nat)
    requires j < |r.body| && (r.body[j].Rule? || r.body[j].NegatedRule?)
    ensures var x, a := AdornRule(r, seen, rw).body[j], r.body[j];
            && (x.Rule? <==> a.Rule?) && (x.NegatedRule? <==> a.NegatedRule?) && x.name.inner == a.name && x.args == a.args
            && if a.Rule? && a.name in rw then x.name.Magic? else x.name == Muggle(a.name)
  {
    hide SeenBefore;
  }

  lemma PlacedInProg(w: Rewriting, i: nat, k: Symbol)
    requires Done(w) && i < |w.strata| && k in w.strata[i]
    ensures k in w.prog && InStratum(w.strata, k, i) && w.strata[i][k] == w.prog[k]
  {
    hide Normalised, StratumDone, Ordered, KeptWhileUsed, Reachable;
    assert InStratum(w.strata, k, i);
  }

  /** The stratum that defines a name applied in an adorned body. */
  lemma NameDefined(w: Rewriting, i: nat, h: MagicSymbol, idx: nat, ar: InlineRule<MagicSymbol>, r: InlineRule<Symbol>, j: nat) returns (at: nat)
    requires Done(w) && ComesFrom(w, i, h, idx, ar, r) && j < |r.body| && (r.body[j].Rule? || r.body[j].NegatedRule?) && r.body[j].name in w.prog
    ensures ar.body[j].Rule? || ar.body[j].NegatedRule?
    ensures at < |w.strata| && at < |w.ads| && ar.body[j].name in w.ads[at]
  {
    hide Normalised, RulesWellFormed, OwnRule, HeadBound, SeenBefore, Reachable, ReadsOf, KeptWhileUsed, IsRewritten, Called, AdornRules, ExemptAt, CallsDefined;
    var x, f := ar.body[j], r.body[j].name;
    AdornedNames(r, HeadBound(r.head, h.MagicAdornment()), Rewritten(w.strata, w.disabled, i), j);
    if x.Rule? && x.name.Magic? {
      CallIsDefined(w, i, h, idx, j);
      at := i;
    } else {
      PlacedInProg(w, i, h.inner);
      ReadsBody(w.prog[h.inner], idx, j);
      ReadIsPlaced(w.prog, w.strata, h.inner, f, i);
      at := StratumOf(w.strata, f);
      if at == i {
        if r.body[j].NegatedRule? {
          NegatedApart(w.prog, w.strata, i, h.inner, idx, j);
        }
        assert f !in Rewritten(w.strata, w.disabled, i);
      } else {
        ReadAcross(w.prog, w.strata, w.lifetimes, w.disabled, i, at, h.inner, f);
        ExemptNotRewritten(w.strata, w.disabled, at, f);
      }
      assert StratumDone(w.strata, w.disabled, at, w.ads[at], w.outs[at]);
      MuggleHead(w.strata[at], Rewritten(w.strata, w.disabled, at), w.ads[at], f);
    }
  }

  lemma ReadsBody(rf: RulesOrFixed<Symbol>, idx: nat, j: nat)
    requires rf.Rules? && idx < |rf.rules| && j < |rf.rules[idx].body| && (rf.rules[idx].body[j].Rule? || rf.rules[idx].body[j].NegatedRule?)
    ensures rf.rules[idx].body[j].name in ReadsOf(rf)
  {
  }

  lemma NegatedApart(prog: Prog, strata: seq<Prog>, i: nat, k: Symbol, idx: nat, j: nat)
    requires Ordered(prog, strata) && InStratum(strata, k, i) && k in prog && prog[k].Rules? && idx < |prog[k].rules| && j < |prog[k].rules[idx].body|
    requires prog[k].rules[idx].body[j].NegatedRule?
    ensures !InStratum(strata, prog[k].rules[idx].body[j].name, i)
  {
    hide NeedsComplete;
    var f := prog[k].rules[idx].body[j].name;
    assert Applied(prog[k].rules[idx].body[j]) == Some((f, true));
    assert Applies(prog[k].rules, f, true);
    NegationPoisons(prog, k, f);
    assert InStratum(strata, f, i) ==> i < i;
  }

  lemma FitsSame(w: Rewriting, cat: Catalog, i: nat, h: MagicSymbol, idx: nat, ar: InlineRule<MagicSymbol>, r: InlineRule<Symbol>, j: nat)
    requires Done(w) && ComesFrom(w, i, h, idx, ar, r) && j < |r.body|
    ensures |ar.body| == |r.body|
    ensures AtomFits(cat, MagicArities(cat, w.outs), ar.body[j]) <==> AtomFits(cat, ProgArities(cat, w.prog), r.body[j])
  {
    hide Done, MagicArities, RulesWellFormed, OwnRule, HeadBound, SeenBefore, Rewritten;
    if r.body[j].Rule? || r.body[j].NegatedRule? {
      Lookup(w, cat, i, h, idx, ar, r, j);
      AdornedNames(r, HeadBound(r.head, h.MagicAdornment()), Rewritten(w.strata, w.disabled, i), j);
    }
  }

  // ----- if the program compiles, so do the strata -----

  lemma OriginCompiles(w: Rewriting, cat: Catalog, i: nat, h: MagicSymbol, idx: nat, ar: InlineRule<MagicSymbol>, r: InlineRule<Symbol>)
    requires Done(w) && QueryCompiles(cat, w.prog) && ComesFrom(w, i, h, idx, ar, r)
    ensures Compiles(cat, ProgArities(cat, w.prog), r)
  {
    hide Normalised, StratumDone, Ordered, KeptWhileUsed, Reachable, OwnRule, RulesWellFormed, Compiles, ProgArities, AdornRule;
    PlacedInProg(w, i, h.inner);
    assert InSomeStratum(w.strata, h.inner);
  }

  lemma OriginIff(w: Rewriting, cat: Catalog, i: nat, h: MagicSymbol, idx: nat, ar: InlineRule<MagicSymbol>, r: InlineRule<Symbol>)
    requires ComesFrom(w, i, h, idx, ar, r)
    ensures Compiles(cat, ProgArities(cat, w.prog), r) <==> AllFit(cat, ProgArities(cat, w.prog), r.body) && !SharesSome(ar.body)
  {
    hide ComesFrom, Compiles, AllFit, SharesSome, GoodOrder, WellOrdered, AllArgsDistinct, HeadIsBound, Distinct, AdornedReady, ProgArities;
    AdornedShape(w, i, h, idx, ar, r);
    GoodIsWellOrdered(r.body);
    CompilesIff(cat, ProgArities(cat, w.prog), r);
    OriginShares(w, i, h, idx, ar, r);
  }

  lemma OriginShares(w: Rewriting, i: nat, h: MagicSymbol, idx: nat, ar: InlineRule<MagicSymbol>, r: InlineRule<Symbol>)
    requires ComesFrom(w, i, h, idx, ar, r)
    ensures SharesSome(ar.body) <==> SharesSome(r.body)
  {
    hide SharesSome, OwnRule, RulesWellFormed, HeadBound, Rewritten, AdornRule;
    AdornShares(r, HeadBound(r.head, h.MagicAdornment()), Rewritten(w.strata, w.disabled, i));
  }

  /** An application made by the rewrite has the right number of arguments. */
  lemma MadeFits(w: Rewriting, cat: Catalog, i: nat, h: MagicSymbol, idx: nat, x: Atom<MagicSymbol>)
    requires Done(w) && i < |w.strata| && HasAdorned(w, i, h, idx) && AppliesEmitted(h, idx, w.ads[i][h].rules[idx], x)
    ensures AtomFits(cat, MagicArities(cat, w.outs), x)
  {
    hide Done, RewriteRule, MagicArities;
    var e :| e in RewriteRule(h, idx, w.ads[i][h].rules[idx]) && e.key.Sup? && x == Rule(e.key, e.rule.head);
    assert e == Emitted(e.key, e.rule);
    EmittedIsRule(w, i, e, h, idx);
    ArityIs(w, cat, i, e.key, e.rule);
  }

  lemma PendingFits(w: Rewriting, cat: Catalog, i: nat, h: MagicSymbol, idx: nat, ar: InlineRule<MagicSymbol>, r: InlineRule<Symbol>, k: nat)
    requires Done(w) && QueryCompiles(cat, w.prog) && ComesFrom(w, i, h, idx, ar, r) && k <= |ar.body|
    ensures AllFit(cat, MagicArities(cat, w.outs), RewriteBody(h, idx, ar, k).atoms)
  {
    hide Done, QueryCompiles, RewriteBody, MagicArities, ProgArities, AtomFits, AppliesEmitted, Compiles, ComesFrom, SharesSome;
    OriginCompiles(w, cat, i, h, idx, ar, r);
    OriginIff(w, cat, i, h, idx, ar, r);
    SameRule(w, i, h, idx, ar, r);
    var atoms := RewriteBody(h, idx, ar, k).atoms;
    forall p | 0 <= p < |atoms|
      ensures AtomFits(cat, MagicArities(cat, w.outs), atoms[p])
    {
      var x := atoms[p];
      PendingApplies(h, idx, ar, k, x);
      if x in ar.body {
        var j :| 0 <= j < |ar.body| && ar.body[j] == x;
        SameBodies(w, i, h, idx, ar, r);
        FitsSame(w, cat, i, h, idx, ar, r, j);
      } else {
        InStrata(w, i, h, idx, ar, r);
        MadeFits(w, cat, i, h, idx, x);
      }
    }
  }

  lemma SameBodies(w: Rewriting, i: nat, h: MagicSymbol, idx: nat, ar: InlineRule<MagicSymbol>, r: InlineRule<Symbol>)
    requires ComesFrom(w, i, h, idx, ar, r)
    ensures |ar.body| == |r.body|
  {
    hide OwnRule, RulesWellFormed, HeadBound, Rewritten;
  }

  lemma InStrata(w: Rewriting, i: nat, h: MagicSymbol, idx: nat, ar: InlineRule<MagicSymbol>, r: InlineRule<Symbol>)
    requires ComesFrom(w, i, h, idx, ar, r)
    ensures i < |w.strata|
  {
  }

  /** The input relation of an adorned head has as many columns as are bound in the head. */
  lemma StartFits(w: Rewriting, cat: Catalog, i: nat, h: MagicSymbol, idx: nat, ar: InlineRule<MagicSymbol>, r: InlineRule<Symbol>)
    requires Done(w) && QueryCompiles(cat, w.prog) && ComesFrom(w, i, h, idx, ar, r) && h.HasBoundAdornment()
    ensures AtomFits(cat, MagicArities(cat, w.outs), Rule(InputName(h), Select(ar.head, h.MagicAdornment())))
  {
    hide Done, QueryCompiles, RewriteBody, RewriteRule, MagicArities, Compiles, Select, SharesSome;
    InStrata(w, i, h, idx, ar, r);
    var g, l, k := Caller(w, i, h);
    var ga, go := Origin(w, i, g, l);
    SameRule(w, i, g, l, ga, go);
    OriginCompiles(w, cat, i, g, l, ga, go);
    OriginIff(w, cat, i, g, l, ga, go);
    BoundCallIsMagic(w, i, g, l, ga, go, k);
    SameBodies(w, i, g, l, ga, go);
    assert AtomFits(cat, ProgArities(cat, w.prog), go.body[k]);
    var e := InputRule(g, l, ga, k);
    assert IsCallRule(g, l, ga, k, e);
    assert SomeCallRule(g, l, ga, |ga.body|, e);
    RuleEmits(g, l, ga, e);
    assert e == Emitted(e.key, e.rule);
    EmittedIsRule(w, i, e, g, l);
    ArityIs(w, cat, i, e.key, e.rule);
    AdornedShape(w, i, h, idx, ar, r);
    SelectLength(ga.body[k].args, ar.head, h.MagicAdornment());
  }

  lemma Caller(w: Rewriting, i: nat, h: MagicSymbol) returns (g: MagicSymbol, l: nat, k: nat)
    requires Done(w) && i < |w.strata| && h in w.ads[i] && h.HasBoundAdornment()
    ensures HasAdorned(w, i, g, l) && k < |w.ads[i][g].rules[l].body| && IsBoundCall(w.ads[i][g].rules[l].body[k])
    ensures w.ads[i][g].rules[l].body[k].name == h
  {
    hide Normalised, Accepted, IsRewritten, NoEmptyRules, AdornRules, AdornFixed, CallsDefined, Rewritten;
    assert StratumDone(w.strata, w.disabled, i, w.ads[i], w.outs[i]);
    assert h.Magic?;
    g, l :| g in w.ads[i] && w.ads[i][g].Rules? && 0 <= l < |w.ads[i][g].rules| && h in MagicCalls(w.ads[i][g].rules[l].body);
    k := CallAt(w.ads[i][g].rules[l].body, h);
  }

  lemma CallAt(body: seq<Atom<MagicSymbol>>, h: MagicSymbol) returns (k: nat)
    requires h in MagicCalls(body)
    ensures k < |body| && body[k].Rule? && body[k].name == h
  {
    k :| k < |body| && body[k].Rule? && body[k].name == h;
  }

  lemma OneNoShares(app: Atom<MagicSymbol>)
    ensures !SharesSome([app])
  {
  }

  /** Every rule of a rewritten stratum compiles, if the rules of the program do. */
  lemma StageRuleCompiles(w: Rewriting, cat: Catalog, i: nat, s: MagicSymbol, r: InlineRule<MagicSymbol>)
    requires Done(w) && QueryCompiles(cat, w.prog) && i < |w.strata| && HasRule(w.outs[i], s, r)
    ensures Compiles(cat, MagicArities(cat, w.outs), r)
  {
    hide Done, QueryCompiles, RewriteBody, RewriteRule, MagicArities, ProgArities, Compiles, ComesFrom, SharesSome, AtomFits, Select,
         WellOrdered, AllArgsDistinct, HeadIsBound, AppliesEmitted, IsBoundCall;
    RuleShaped(w, i, s, r);
    CompilesIff(cat, MagicArities(cat, w.outs), r);
    var h, idx := Emission(w, i, s, r);
    var ar, orig := Origin(w, i, h, idx);
    SameRule(w, i, h, idx, ar, orig);
    RuleEmits(h, idx, ar, Emitted(s, r));
    if Emitted(s, r) == FinalRule(h, idx, ar) {
      PendingCompiles(w, cat, i, h, idx, ar, orig, |ar.body|);
    } else if h.HasBoundAdornment() && Emitted(s, r) == StartRule(h, idx, ar) {
      var app := Rule(InputName(h), Select(ar.head, h.MagicAdornment()));
      StartFits(w, cat, i, h, idx, ar, orig);
      OneNoShares(app);
      assert r.body == [app];
    } else {
      var k: nat :| k < |ar.body| && IsCallRule(h, idx, ar, k, Emitted(s, r));
      if Emitted(s, r) == SupRule(h, idx, ar, k) {
        PendingCompiles(w, cat, i, h, idx, ar, orig, k);
      } else {
        var st := RewriteBody(h, idx, ar, k);
        var app := Rule(SupName(h, idx, st.sups), st.seen);
        SupApplies(h, idx, ar, k);
        MadeFits(w, cat, i, h, idx, app);
        OneNoShares(app);
        assert r.body == [app];
      }
    }
  }

  lemma PendingCompiles(w: Rewriting, cat: Catalog, i: nat, h: MagicSymbol, idx: nat, ar: InlineRule<MagicSymbol>, r: InlineRule<Symbol>, k: nat)
    requires Done(w) && QueryCompiles(cat, w.prog) && ComesFrom(w, i, h, idx, ar, r) && k <= |ar.body|
    ensures var atoms := RewriteBody(h, idx, ar, k).atoms; AllFit(cat, MagicArities(cat, w.outs), atoms) && !SharesSome(atoms)
  {
    hide Done, QueryCompiles, RewriteBody, MagicArities, ProgArities, Compiles, ComesFrom, SharesSome, AllFit, AdornedReady, AllArgsDistinct, GoodOrder,
         HeadIsBound, Distinct;
    PendingFits(w, cat, i, h, idx, ar, r, k);
    OriginCompiles(w, cat, i, h, idx, ar, r);
    OriginIff(w, cat, i, h, idx, ar, r);
    AdornedShape(w, i, h, idx, ar, r);
    if SharesSome(RewriteBody(h, idx, ar, k).atoms) {
      PendingShares(h, idx, ar, k);
    }
  }

  // ----- if the strata compile, so does the program -----

  /** Every rule that the query uses comes up in its stratum, under some name. */
  lemma Placed(w: Rewriting, k: Symbol, i: nat) returns (h: MagicSymbol)
    requires Done(w) && InStratum(w.strata, k, i)
    ensures h in w.ads[i] && h.inner == k
  {
    hide Normalised, StratumDone, Ordered, KeptWhileUsed, ReadsOf, InStratum, Depends;
    assert InSomeStratum(w.strata, k);
    var p :| IsPathBetween(DepEdges(w.prog), p, PROG_ENTRY, k);
    var l := 0;
    var at: nat := StartsAt(w, p);
    h := EntryAdorned(w, at);
    while l < |p| - 1
      invariant 0 <= l < |p| && at < |w.strata| && at < |w.ads| && InStratum(w.strata, p[l], at) && h in w.ads[at] && h.inner == p[l]
    {
      var next := NextOnPath(w, p, l, k);
      h := StepAdorned(w, h, at, p[l + 1], next);
      l, at := l + 1, next;
    }
    assert at == i;
  }

  lemma StartsAt(w: Rewriting, p: seq<Symbol>) returns (at: nat)
    requires Done(w) && p != [] && p[0] == PROG_ENTRY && IsPathBetween(DepEdges(w.prog), p, PROG_ENTRY, p[|p| - 1]) && p[|p| - 1] in w.prog
    ensures InStratum(w.strata, PROG_ENTRY, at) && at < |w.strata| && at < |w.ads|
  {
    hide Normalised, StratumDone, Ordered, KeptWhileUsed, Depends, Reach;
    DependsInProg(w.prog);
    assert PROG_ENTRY in w.prog by {
      if |p| > 1 {
        assert (p[0], p[1]) in DepEdges(w.prog);
      }
    }
    ReachRefl(DepEdges(w.prog), PROG_ENTRY);
    at := StratumOf(w.strata, PROG_ENTRY);
  }

  lemma EntryAdorned(w: Rewriting, at: nat) returns (h: MagicSymbol)
    requires Done(w) && InStratum(w.strata, PROG_ENTRY, at) && at < |w.ads|
    ensures h in w.ads[at] && h.inner == PROG_ENTRY
  {
    hide Normalised, Accepted, IsRewritten, Called, AdornRules, AdornFixed, CallsDefined;
    ExemptGrows(w.strata, w.disabled, 0, at);
    assert StratumDone(w.strata, w.disabled, at, w.ads[at], w.outs[at]);
    h := Muggle(PROG_ENTRY);
  }

  lemma NextOnPath(w: Rewriting, p: seq<Symbol>, l: nat, k: Symbol) returns (at: nat)
    requires Done(w) && IsPathBetween(DepEdges(w.prog), p, PROG_ENTRY, k) && k in w.prog && l + 1 < |p|
    ensures InStratum(w.strata, p[l + 1], at) && at < |w.strata| && at < |w.ads| && Depends(w.prog, p[l], p[l + 1])
  {
    hide Normalised, StratumDone, Ordered, KeptWhileUsed, Depends;
    assert (p[l], p[l + 1]) in DepEdges(w.prog);
    PrefixReach(DepEdges(w.prog), p, l + 1);
    DependsInProg(w.prog);
    assert p[l + 1] in w.prog by {
      if l + 2 < |p| {
        assert (p[l + 1], p[l + 1 + 1]) in DepEdges(w.prog);
      }
    }
    at := StratumOf(w.strata, p[l + 1]);
  }

  /** What an adorned rule depends on is adorned too. */
  lemma StepAdorned(w: Rewriting, h: MagicSymbol, i: nat, f: Symbol, j: nat) returns (c: MagicSymbol)
    requires Done(w) && i < |w.strata| && i < |w.ads| && h in w.ads[i] && InStratum(w.strata, h.inner, i) && Depends(w.prog, h.inner, f)
    requires InStratum(w.strata, f, j) && j < |w.ads|
    ensures c in w.ads[j] && c.inner == f
  {
    hide Normalised, KeptWhileUsed, Reachable, IsRewritten, Called, AdornRules, CallsDefined, ExemptAt, Applies, RulesWellFormed, OwnRule, HeadBound,
         SeenBefore, NeedsComplete;
    assert StratumDone(w.strata, w.disabled, i, w.ads[i], w.outs[i]);
    assert StratumDone(w.strata, w.disabled, j, w.ads[j], w.outs[j]);
    PlacedInProg(w, i, h.inner);
    if f !in Rewritten(w.strata, w.disabled, j) {
      c := Muggle(f);
    } else {
      DependsIsReads(w.prog, h.inner, f);
      if i != j {
        ReadAcross(w.prog, w.strata, w.lifetimes, w.disabled, i, j, h.inner, f);
        ExemptNotRewritten(w.strata, w.disabled, j, f);
      }
      assert i == j;
      assert !Poisons(w.prog, h.inner, f);
      var l, k := PlainApplication(w.prog, h.inner, f);
      var ar, r := Origin(w, i, h, l);
      AdornedNames(r, HeadBound(r.head, h.MagicAdornment()), Rewritten(w.strata, w.disabled, i), k);
      CallIsDefined(w, i, h, l, k);
      c := ar.body[k].name;
    }
  }

  /** A dependency that asks for no completion is an application of a rule in a rule. */
  lemma PlainApplication(prog: Prog, k: Symbol, f: Symbol) returns (l: nat, j: nat)
    requires Depends(prog, k, f) && !Poisons(prog, k, f)
    ensures k in prog && prog[k].Rules? && l < |prog[k].rules| && j < |prog[k].rules[l].body|
    ensures prog[k].rules[l].body[j].Rule? && prog[k].rules[l].body[j].name == f
  {
    if prog[k].Rules? && Applies(prog[k].rules, f, true) {
      NegationPoisons(prog, k, f);
    }
    l, j :| l < |prog[k].rules| && j < |prog[k].rules[l].body| && Applied(prog[k].rules[l].body[j]) == Some((f, false));
  }

  ghost predicate StrataFine(w: Rewriting, cat: Catalog) {
    forall i :: 0 <= i < |w.outs| ==> RulesCompile(cat, MagicArities(cat, w.outs), w.outs[i])
  }

  lemma EmittedCompiles(w: Rewriting, cat: Catalog, i: nat, e: Emitted, h: MagicSymbol, idx: nat)
    requires Done(w) && StrataFine(w, cat) && i < |w.strata| && EmittedFor(w, i, e.key, e.rule, h, idx)
    ensures Compiles(cat, MagicArities(cat, w.outs), e.rule) && AllFit(cat, MagicArities(cat, w.outs), e.rule.body) && !SharesSome(e.rule.body)
  {
    hide Done, RewriteRule, MagicArities, Compiles, AllFit, SharesSome, WellOrdered, AllArgsDistinct, HeadIsBound;
    EmittedIsRule(w, i, e, h, idx);
    DoneSize(w);
    RuleShaped(w, i, e.key, e.rule);
    CompilesIff(cat, MagicArities(cat, w.outs), e.rule);
  }

  lemma OriginFits(w: Rewriting, cat: Catalog, i: nat, h: MagicSymbol, idx: nat, ar: InlineRule<MagicSymbol>, r: InlineRule<Symbol>, j: nat)
    requires Done(w) && StrataFine(w, cat) && ComesFrom(w, i, h, idx, ar, r) && j < |r.body|
    ensures AtomFits(cat, ProgArities(cat, w.prog), r.body[j])
  {
    hide Done, StrataFine, ComesFrom, RewriteRule, MagicArities, ProgArities, Compiles, AtomFits, SharesSome;
    SameBodies(w, i, h, idx, ar, r);
    SameRule(w, i, h, idx, ar, r);
    InStrata(w, i, h, idx, ar, r);
    var e := AtomEmitted(h, idx, ar, j);
    assert e == Emitted(e.key, e.rule);
    EmittedCompiles(w, cat, i, e, h, idx);
    var p :| 0 <= p < |e.rule.body| && e.rule.body[p] == ar.body[j];
    FitsSame(w, cat, i, h, idx, ar, r, j);
  }

  lemma RuleCompilesBack(w: Rewriting, cat: Catalog, i: nat, h: MagicSymbol, idx: nat, ar: InlineRule<MagicSymbol>, r: InlineRule<Symbol>)
    requires Done(w) && StrataFine(w, cat) && ComesFrom(w, i, h, idx, ar, r)
    ensures Compiles(cat, ProgArities(cat, w.prog), r)
  {
    hide Done, StrataFine, ComesFrom, RewriteRule, MagicArities, ProgArities, Compiles, AtomFits, SharesSome, RewriteBody, AdornedReady, AllArgsDistinct,
         GoodOrder, HeadIsBound, Distinct;
    OriginIff(w, cat, i, h, idx, ar, r);
    forall j | 0 <= j < |r.body|
      ensures AtomFits(cat, ProgArities(cat, w.prog), r.body[j])
    {
      OriginFits(w, cat, i, h, idx, ar, r, j);
    }
    AdornedShape(w, i, h, idx, ar, r);
    SameRule(w, i, h, idx, ar, r);
    InStrata(w, i, h, idx, ar, r);
    if SharesSome(ar.body) {
      CallsBefore(w, i, h, idx, ar, r);
      FinalShares(h, idx, ar);
      var e := FinalRule(h, idx, ar);
      RuleEmits(h, idx, ar, e);
      assert e == Emitted(e.key, e.rule);
      EmittedCompiles(w, cat, i, e, h, idx);
    }
  }

  lemma CallsBefore(w: Rewriting, i: nat, h: MagicSymbol, idx: nat, ar: InlineRule<MagicSymbol>, r: InlineRule<Symbol>)
    requires ComesFrom(w, i, h, idx, ar, r)
    ensures forall l, s, k :: 0 <= l <= k < |ar.body| && s in Negates(ar.body[l]) && s !in BodyBinds(ar.body) ==> !IsBoundCall(ar.body[k])
  {
    hide OwnRule, RulesWellFormed, HeadBound, Rewritten, AdornRule, GoodOrder, BodyBinds, Negates, IsBoundCall, HeadIsBound, AllArgsDistinct, Distinct, AdornedReady;
    AdornedShape(w, i, h, idx, ar, r);
    SameBodies(w, i, h, idx, ar, r);
    forall l, s, k | 0 <= l <= k < |ar.body| && s in Negates(ar.body[l]) && s !in BodyBinds(ar.body)
      ensures !IsBoundCall(ar.body[k])
    {
      NoCallsAfter(r, HeadBound(r.head, h.MagicAdornment()), Rewritten(w.strata, w.disabled, i), l, s, k);
    }
  }

  /** The rewritten strata compile exactly if the rules that the query uses do. */
  lemma StrataCompileIff(w: Rewriting, cat: Catalog)
    requires Done(w)
    ensures StrataFine(w, cat) <==> QueryCompiles(cat, w.prog)
  {
    hide Done, Compiles, MagicArities, ProgArities, Reachable, ComesFrom;
    DoneSize(w);
    if QueryCompiles(cat, w.prog) {
      forall i, s, r | 0 <= i < |w.outs| && HasRule(w.outs[i], s, r)
        ensures Compiles(cat, MagicArities(cat, w.outs), r)
      {
        StageRuleCompiles(w, cat, i, s, r);
      }
    }
    if StrataFine(w, cat) {
      forall k, l | k in w.prog && Reachable(w.prog, k) && w.prog[k].Rules? && 0 <= l < |w.prog[k].rules|
        ensures Compiles(cat, ProgArities(cat, w.prog), w.prog[k].rules[l])
      {
        var h, i := PlacedRule(w, k, l);
        var ar, r := Origin(w, i, h, l);
        RuleCompilesBack(w, cat, i, h, l, ar, r);
        OriginIs(w, i, h, l, ar, r);
      }
    }
  }

  lemma OriginIs(w: Rewriting, i: nat, h: MagicSymbol, idx: nat, ar: InlineRule<MagicSymbol>, r: InlineRule<Symbol>)
    requires ComesFrom(w, i, h, idx, ar, r)
    ensures h.inner in w.prog && w.prog[h.inner].Rules? && idx < |w.prog[h.inner].rules| && r == w.prog[h.inner].rules[idx]
  {
  }

  lemma PlacedRule(w: Rewriting, k: Symbol, l: nat) returns (h: MagicSymbol, i: nat)
    requires Done(w) && k in w.prog && Reachable(w.prog, k) && w.prog[k].Rules? && l < |w.prog[k].rules|
    ensures HasAdorned(w, i, h, l) && h.inner == k
  {
    hide Normalised, Ordered, KeptWhileUsed, Reachable, IsRewritten, Called, CallsDefined, Rewritten, AdornFixed;
    assert InSomeStratum(w.strata, k);
    i := StratumOf(w.strata, k);
    h := Placed(w, k, i);
    assert StratumDone(w.strata, w.disabled, i, w.ads[i], w.outs[i]);
  }
}
