/** A rewritten stratum can be evaluated: its rules are in order and everything they read is there. */
module StageReady {
  import opened Wrappers
  import opened Exprs
  import opened Program
  import opened Datalog
  import Graphs
  import opened Stratify
  import opened MagicSets
  import opened MagicCorrect
  import opened MagicRewrite
  import opened SemiNaive
  import opened StrataMagic
  import opened Compile
  import opened Reorder

  /** Stratification takes the rule for a meet aggregation that may read itself. */
  ghost predicate MeetReadsItself(prog: Prog, k: Symbol) {
    k in prog && prog[k].Rules? && AllMeet(prog[k].rules) && k in ReadsOf(prog[k])
  }

  /** What parsing, normalisation and reordering see to for the rules that the query uses, meet aggregations left aside: bodies are
      in order and bind the head, applications and heads have distinct arguments, the rules of a relation have heads of one length
      and aggregate alike, none that is taken for a meet aggregation, and reads itself, is computed once, and fixed rules read
      rules that are defined. */
  ghost predicate Normalised(prog: Prog) {
    && (forall k :: k in prog && Reachable(prog, k) && prog[k].Rules? ==> RulesWellFormed(prog[k].rules, prog.Keys))
    && (forall k :: k in prog && Reachable(prog, k) && IsOnce(prog[k]) ==> !MeetReadsItself(prog, k))
    && (forall k, f :: k in prog && Reachable(prog, k) && prog[k].Fixed? && f in ReadsOf(prog[k]) ==> f in prog)
  }

  /** And every rule that is applied is defined. */
  ghost predicate WellFormed(prog: Prog) {
    Normalised(prog) && Closed(prog)
  }

  ghost predicate RulesWellFormed(rules: seq<InlineRule<Symbol>>, names: set<Symbol>) {
    && rules != []
    && KindOf(rules[0].aggr) != Meet
    && forall i :: 0 <= i < |rules| ==>
         && RuleReady(rules[i], names) && GoodOrder(rules[i].body) && AllArgsDistinct(rules[i].body) && Distinct(rules[i].head)
         && |rules[i].head| == |rules[0].head| && KindOf(rules[i].aggr) == KindOf(rules[0].aggr)
  }

  /** How the rules of a relation aggregate. */
  ghost function HeadKind(p: Prog, n: Symbol): AggrKind {
    if n in p && p[n].Rules? && p[n].rules != [] then KindOf(p[n].rules[0].aggr) else NoAggr
  }

  // ----- rewritten bodies stay in order -----

  ghost predicate OrderedIn<S>(atoms: seq<Atom<S>>, all: set<Symbol>) {
    forall i :: 0 <= i < |atoms| ==>
      && Uses(atoms[i]) <= BodyBinds(atoms[..i])
      && Negates(atoms[i]) * all <= BodyBinds(atoms[..i])
  }

  lemma OrderedAppend<S>(atoms: seq<Atom<S>>, a: Atom<S>, all: set<Symbol>)
    requires OrderedIn(atoms, all) && Uses(a) <= BodyBinds(atoms) && Negates(a) * all <= BodyBinds(atoms)
    ensures OrderedIn(atoms + [a], all)
  {
    hide Uses, Negates, BodyBinds;
    forall i | 0 <= i < |atoms + [a]|
      ensures Uses((atoms + [a])[i]) <= BodyBinds((atoms + [a])[..i]) && Negates((atoms + [a])[i]) * all <= BodyBinds((atoms + [a])[..i])
    {
      if i < |atoms| {
        assert (atoms + [a])[..i] == atoms[..i];
      } else {
        assert (atoms + [a])[..i] == atoms;
      }
    }
  }

  lemma OrderedSup<S>(app: Atom<S>, a: Atom<S>, all: set<Symbol>)
    requires app.Rule? && Uses(a) <= Binds(app) && Negates(a) * all <= Binds(app)
    ensures OrderedIn([app, a], all)
  {
    BodyBindsOne(app);
    assert OrderedIn([app], all);
    OrderedAppend([app], a, all);
    assert [app, a] == [app] + [a];
  }

  lemma {:induction false} AtomsOrdered(h: MagicSymbol, idx: nat, r: InlineRule<MagicSymbol>, k: nat)
    requires AdornedReady(r) && k <= |r.body|
    ensures OrderedIn(RewriteBody(h, idx, r, k).atoms, BodyBinds(r.body))
  {
    hide BodyBinds, Uses, Negates, Binds, OrderedIn, HeadBound, Step, IsBoundCall;
    if k == 0 {
      StartOrdered(h, idx, r, BodyBinds(r.body));
    } else {
      AtomsOrdered(h, idx, r, k - 1);
      SeenIs(h, idx, r, k - 1);
      var st, a := RewriteBody(h, idx, r, k - 1), r.body[k - 1];
      assert Uses(a) <= BodyBinds(r.body[..k - 1]) && Negates(a) * BodyBinds(r.body) <= BodyBinds(r.body[..k - 1]);
      if IsBoundCall(a) {
        StepSup(h, idx, st, a);
        var app := Rule(SupName(h, idx, st.sups), st.seen);
        assert Binds(app) == SeenSet(h, idx, r, k - 1) by { AppBinds(app); }
        OrderedSup(app, a, BodyBinds(r.body));
      } else {
        StepPlain(h, idx, st, a);
        OrderedAppend(st.atoms, a, BodyBinds(r.body));
      }
    }
  }

  lemma AppBinds(app: Atom<MagicSymbol>)
    requires app.Rule?
    ensures Binds(app) == SetOf(app.args)
  {
  }

  lemma StartOrdered(h: MagicSymbol, idx: nat, r: InlineRule<MagicSymbol>, all: set<Symbol>)
    ensures OrderedIn(RewriteBody(h, idx, r, 0).atoms, all)
  {
  }

  lemma AtomsWellOrdered(h: MagicSymbol, idx: nat, r: InlineRule<MagicSymbol>, k: nat)
    requires AdornedReady(r) && k <= |r.body|
    ensures WellOrdered(RewriteBody(h, idx, r, k).atoms)
  {
    hide BodyBinds, Uses, Negates, RewriteBody, HeadBound;
    AtomsOrdered(h, idx, r, k);
    SeenIs(h, idx, r, k);
    SeenInBody(h, idx, r, k);
  }

  lemma OneAtomOrdered(app: Atom<MagicSymbol>)
    requires app.Rule?
    ensures WellOrdered([app])
  {
  }

  // ----- one stratum in context -----

  /** Stratum `i` of an accepted program, adorned and rewritten. */
  ghost predicate Staged(prog: Prog, strata: seq<Prog>, lifetimes: map<MagicSymbol, nat>, disabled: bool, i: nat, ad: MagicProg, m: MagicProg) {
    Normalised(prog) && Accepted(prog, strata, lifetimes) && i < |strata| && StratumDone(strata, disabled, i, ad, m)
  }

  /** The same where everything applied is defined. */
  ghost predicate Stage(prog: Prog, strata: seq<Prog>, lifetimes: map<MagicSymbol, nat>, disabled: bool, i: nat, ad: MagicProg, m: MagicProg) {
    WellFormed(prog) && Staged(prog, strata, lifetimes, disabled, i, ad, m)
  }

  lemma StageRules(prog: Prog, strata: seq<Prog>, i: nat, n: Symbol)
    requires Normalised(prog) && Places(prog, strata) && i < |strata| && n in strata[i]
    ensures n in prog && strata[i][n] == prog[n]
    ensures prog[n].Rules? ==> RulesWellFormed(prog[n].rules, prog.Keys)
  {
    hide RulesWellFormed, Closed, Reachable, IsOnce, MeetReadsItself;
    assert InStratum(strata, n, i);
  }

  lemma StageReadyFor(prog: Prog, strata: seq<Prog>, lifetimes: map<MagicSymbol, nat>, disabled: bool, i: nat, ad: MagicProg, m: MagicProg)
    requires Staged(prog, strata, lifetimes, disabled, i, ad, m)
    ensures forall n, l :: n in strata[i] && strata[i][n].Rules? && 0 <= l < |strata[i][n].rules| ==>
      RuleReady(strata[i][n].rules[l], Rewritten(strata, disabled, i))
  {
    hide Normalised, WellOrdered, BodyBinds, KindOf, Places, ExemptAt, StratumDone;
    forall n, l | n in strata[i] && strata[i][n].Rules? && 0 <= l < |strata[i][n].rules|
      ensures RuleReady(strata[i][n].rules[l], Rewritten(strata, disabled, i))
    {
      StageRules(prog, strata, i, n);
      assert RuleReady(prog[n].rules[l], prog.Keys);
      forall k | k in Rewritten(strata, disabled, i)
        ensures k in prog.Keys
      {
        StageRules(prog, strata, i, k);
      }
    }
  }

  /** An adorned rule of the stratum, and the rule it came from. */
  lemma StageOwn(prog: Prog, strata: seq<Prog>, lifetimes: map<MagicSymbol, nat>, disabled: bool, i: nat, ad: MagicProg, m: MagicProg,
                 h: MagicSymbol, idx: nat)
    requires Staged(prog, strata, lifetimes, disabled, i, ad, m)
    requires h in ad && ad[h].Rules? && idx < |ad[h].rules|
    ensures OwnRule(ad, h, idx, ad[h].rules[idx])
    ensures h.inner in strata[i] && strata[i][h.inner].Rules? && idx < |strata[i][h.inner].rules|
    ensures ad[h].rules[idx] == AdornRule(strata[i][h.inner].rules[idx], HeadBound(strata[i][h.inner].rules[idx].head, h.MagicAdornment()),
                                          Rewritten(strata, disabled, i))
  {
    StageReadyFor(prog, strata, lifetimes, disabled, i, ad, m);
    hide Normalised, Accepted, RuleReady, IsRewritten, OwnRule, AdornRule, HeadBound, Rewritten, Called, CallsDefined;
    var none: DB<Symbol> := iset{};
    assert Ready(strata[i], Rewritten(strata, disabled, i), none);
    AdornedOwn(strata[i], Rewritten(strata, disabled, i), none, ad, h, idx);
    assert h.inner in strata[i];
  }

  // ----- which relations are there -----

  /** Every adorned head has its relation. */
  lemma HeadInM(prog: Prog, strata: seq<Prog>, lifetimes: map<MagicSymbol, nat>, disabled: bool, i: nat, ad: MagicProg, m: MagicProg, h: MagicSymbol)
    requires Staged(prog, strata, lifetimes, disabled, i, ad, m) && h in ad
    ensures h in m
  {
    hide Normalised, Places, Ordered, KeptWhileUsed, Rewritten, Called, AdornRules, AdornFixed, CallsDefined, RewriteRule, NoEmptyRules;
    if ad[h].Rules? {
      StageRules(prog, strata, i, h.inner);
      assert ad[h].rules != [];
      var e := FinalRule(h, 0, ad[h].rules[0]);
      RuleEmits(h, 0, ad[h].rules[0], e);
      assert Emits(ad, e, h, 0);
      assert e == Emitted(h, e.rule);
      assert HasRule(m, h, e.rule);
    }
  }

  lemma EmittedInM(ad: MagicProg, m: MagicProg, h: MagicSymbol, idx: nat, e: Emitted)
    requires IsRewritten(ad, m) && Emits(ad, e, h, idx)
    ensures e.key in m
  {
    hide RewriteRule;
    assert e == Emitted(e.key, e.rule);
    assert EmittedBySome(ad, e);
    assert HasRule(m, e.key, e.rule);
  }

  /** Every bound call has its input relation. */
  lemma InputInM(ad: MagicProg, m: MagicProg, h: MagicSymbol)
    requires IsRewritten(ad, m) && Called(ad, h) && h.HasBoundAdornment()
    ensures InputName(h) in m
  {
    hide RewriteRule, IsRewritten;
    var g, l :| g in ad && ad[g].Rules? && 0 <= l < |ad[g].rules| && h in MagicCalls(ad[g].rules[l].body);
    var r := ad[g].rules[l];
    var k :| 0 <= k < |r.body| && r.body[k].Rule? && r.body[k].name.Magic? && r.body[k].name == h;
    var e := InputRule(g, l, r, k);
    assert IsCallRule(g, l, r, k, e);
    assert SomeCallRule(g, l, r, |r.body|, e);
    RuleEmits(g, l, r, e);
    EmittedInM(ad, m, g, l, e);
  }

  lemma SupInM(ad: MagicProg, m: MagicProg, h: MagicSymbol, idx: nat, r: InlineRule<MagicSymbol>, k: nat)
    requires IsRewritten(ad, m) && h in ad && ad[h].Rules? && idx < |ad[h].rules| && r == ad[h].rules[idx]
    requires k < |r.body| && IsBoundCall(r.body[k])
    ensures SupRule(h, idx, r, k).key in m
  {
    hide RewriteRule, IsRewritten;
    var e := SupRule(h, idx, r, k);
    assert IsCallRule(h, idx, r, k, e);
    assert SomeCallRule(h, idx, r, |r.body|, e);
    RuleEmits(h, idx, r, e);
    EmittedInM(ad, m, h, idx, e);
  }

  lemma StartInM(ad: MagicProg, m: MagicProg, h: MagicSymbol, idx: nat, r: InlineRule<MagicSymbol>)
    requires IsRewritten(ad, m) && h in ad && ad[h].Rules? && idx < |ad[h].rules| && r == ad[h].rules[idx]
    requires h.HasBoundAdornment()
    ensures StartRule(h, idx, r).key in m
  {
    hide RewriteRule, IsRewritten;
    RuleEmits(h, idx, r, StartRule(h, idx, r));
    EmittedInM(ad, m, h, idx, StartRule(h, idx, r));
  }

  /** An atom of a rewritten body is one of the original body, or applies a supplementary relation that is there. */
  lemma {:induction false} AtomsFrom(ad: MagicProg, m: MagicProg, h: MagicSymbol, idx: nat, r: InlineRule<MagicSymbol>, k: nat, x: Atom<MagicSymbol>)
    requires IsRewritten(ad, m) && h in ad && ad[h].Rules? && idx < |ad[h].rules| && r == ad[h].rules[idx]
    requires k <= |r.body| && x in RewriteBody(h, idx, r, k).atoms
    ensures (x.Rule? && x.name in m) || x in r.body
  {
    hide IsRewritten, InsertAll, BindList, Select;
    if k == 0 {
      if h.HasBoundAdornment() {
        StartInM(ad, m, h, idx, r);
      }
    } else {
      var st, a := RewriteBody(h, idx, r, k - 1), r.body[k - 1];
      if x in st.atoms {
        AtomsFrom(ad, m, h, idx, r, k - 1, x);
      } else if x != a {
        SupInM(ad, m, h, idx, r, k - 1);
      }
    }
  }

  /** A relation read in stratum `i` is computed there, or was computed before under its plain name and is still kept. */
  ghost predicate Present(strata: seq<Prog>, lifetimes: map<MagicSymbol, nat>, disabled: bool, i: nat, m: MagicProg, s: MagicSymbol)
    requires i < |strata|
  {
    s in m ||
    (&& s.Muggle? && s in lifetimes && |strata| - 1 - i <= lifetimes[s]
     && exists j: nat :: i < j && InStratum(strata, s.inner, j) && s.inner !in Rewritten(strata, disabled, j))
  }

  lemma MugglePresent(prog: Prog, strata: seq<Prog>, lifetimes: map<MagicSymbol, nat>, disabled: bool, i: nat, ad: MagicProg, m: MagicProg,
                      k: Symbol, f: Symbol)
    requires Stage(prog, strata, lifetimes, disabled, i, ad, m)
    requires k in strata[i] && f in ReadsOf(strata[i][k]) && f !in Rewritten(strata, disabled, i)
    ensures Present(strata, lifetimes, disabled, i, m, Muggle(f))
    ensures f !in strata[i] ==> f in prog && InSomeStratum(strata, f)
  {
    hide ReadsOf, RulesWellFormed, ExemptAt, ExemptBefore, Ordered, KeptWhileUsed, IsOnce;
    StageRules(prog, strata, i, k);
    if f in strata[i] {
      MuggleHead(strata[i], Rewritten(strata, disabled, i), ad, f);
      HeadInM(prog, strata, lifetimes, disabled, i, ad, m, Muggle(f));
    } else {
      assert InStratum(strata, k, i);
      assert InSomeStratum(strata, k);
      assert f in prog;
      ReadIsPlaced(prog, strata, k, f, i);
      var j := StratumOf(strata, f);
      ReadAcross(prog, strata, lifetimes, disabled, i, j, k, f);
      ExemptNotRewritten(strata, disabled, j, f);
    }
  }

  lemma ExemptNotRewritten(strata: seq<Prog>, disabled: bool, j: nat, f: Symbol)
    requires j < |strata| && f in ExemptBefore(strata, disabled, j)
    ensures f !in Rewritten(strata, disabled, j)
  {
  }

  lemma MuggleHead(p: Prog, rw: set<Symbol>, ad: MagicProg, f: Symbol)
    requires IsAdorned(p, rw, ad) && f in p && f !in rw
    ensures Muggle(f) in ad
  {
  }

  lemma ReadIsPlaced(prog: Prog, strata: seq<Prog>, k: Symbol, f: Symbol, i: nat)
    requires Places(prog, strata) && InStratum(strata, k, i) && f in ReadsOf(prog[k]) && f in prog
    ensures InSomeStratum(strata, f)
  {
    hide ReadsOf, InStratum;
    assert InSomeStratum(strata, k);
    DependsIsReads(prog, k, f);
    Graphs.ReachEdge(DepEdges(prog), k, f);
    Graphs.ReachTrans(DepEdges(prog), PROG_ENTRY, k, f);
  }

  /** What an adorned body reads. */
  lemma AdornedReads(prog: Prog, strata: seq<Prog>, lifetimes: map<MagicSymbol, nat>, disabled: bool, i: nat, ad: MagicProg, m: MagicProg,
                     h: MagicSymbol, idx: nat, x: Atom<MagicSymbol>)
    requires Stage(prog, strata, lifetimes, disabled, i, ad, m)
    requires h in ad && ad[h].Rules? && idx < |ad[h].rules| && x in ad[h].rules[idx].body && (x.Rule? || x.NegatedRule?)
    ensures Present(strata, lifetimes, disabled, i, m, x.name)
    ensures x.NegatedRule? ==> x.name !in m
  {
    hide WellFormed, Accepted, Rewritten, Called, AdornSeen, SeenBefore, IsRewritten, NoEmptyRules, Present, OwnRule, AdornFixed;
    StageOwn(prog, strata, lifetimes, disabled, i, ad, m, h, idx);
    var orig, rw := strata[i][h.inner].rules[idx], Rewritten(strata, disabled, i);
    var l :| 0 <= l < |orig.body| && x == ad[h].rules[idx].body[l];
    var a := orig.body[l];
    assert x == AdornAtom(a, SeenBefore(orig.body, HeadBound(orig.head, h.MagicAdornment()), rw, l), rw);
    assert a.name in ReadsOf(strata[i][h.inner]);
    if x.name.Magic? {
      assert CallsDefined(ad, ad[h].rules);
      HeadInM(prog, strata, lifetimes, disabled, i, ad, m, x.name);
      InMPresent(strata, lifetimes, disabled, i, m, x.name);
    } else if x.NegatedRule? {
      NegatedElsewhere(prog, strata, lifetimes, disabled, i, ad, m, h.inner, idx, l);
    } else {
      MugglePresent(prog, strata, lifetimes, disabled, i, ad, m, h.inner, a.name);
    }
  }

  lemma InMPresent(strata: seq<Prog>, lifetimes: map<MagicSymbol, nat>, disabled: bool, i: nat, m: MagicProg, s: MagicSymbol)
    requires i < |strata| && s in m
    ensures Present(strata, lifetimes, disabled, i, m, s)
  {
  }

  /** A negated rule was completed before. */
  lemma NegatedElsewhere(prog: Prog, strata: seq<Prog>, lifetimes: map<MagicSymbol, nat>, disabled: bool, i: nat, ad: MagicProg, m: MagicProg,
                         k: Symbol, idx: nat, l: nat)
    requires Stage(prog, strata, lifetimes, disabled, i, ad, m)
    requires k in strata[i] && strata[i][k].Rules? && idx < |strata[i][k].rules| && l < |strata[i][k].rules[idx].body|
    requires strata[i][k].rules[idx].body[l].NegatedRule?
    ensures Present(strata, lifetimes, disabled, i, m, Muggle(strata[i][k].rules[idx].body[l].name))
    ensures Muggle(strata[i][k].rules[idx].body[l].name) !in m
  {
    hide RulesWellFormed, KeptWhileUsed, IsOnce, Closed, Present, ExemptAt, IsAdorned, IsRewritten, NeedsComplete, Called;
    var f := strata[i][k].rules[idx].body[l].name;
    StageRules(prog, strata, i, k);
    assert f in ReadsOf(strata[i][k]);
    assert Applied(prog[k].rules[idx].body[l]) == Some((f, true));
    assert Applies(prog[k].rules, f, true);
    NegationPoisons(prog, k, f);
    assert f !in strata[i] by {
      assert InStratum(strata, k, i);
      assert !InStratum(strata, f, i);
    }
    MugglePresent(prog, strata, lifetimes, disabled, i, ad, m, k, f);
    MuggleKeys(strata, disabled, i, ad, m, f);
  }

  lemma NegationPoisons(prog: Prog, k: Symbol, f: Symbol)
    requires k in prog && prog[k].Rules? && Applies(prog[k].rules, f, true)
    ensures Depends(prog, k, f) && Poisons(prog, k, f)
  {
    assert NeedsComplete(prog, k, f, true);
  }

  /** The relations of a rewritten stratum are those of adorned heads, input and supplementary ones. */
  lemma KeysOfM(ad: MagicProg, m: MagicProg, s: MagicSymbol)
    requires IsRewritten(ad, m) && NoEmptyRules(m) && (forall k :: k in m && m[k].Fixed? ==> k in ad && ad[k] == m[k])
    requires s in m
    ensures s in ad || s.Sup? || s.Input?
  {
    hide RewriteRule;
    if m[s].Rules? {
      var r := m[s].rules[0];
      assert HasRule(m, s, r);
      assert EmittedBySome(ad, Emitted(s, r));
      var h, idx: nat :| Emits(ad, Emitted(s, r), h, idx);
      RuleEmits(h, idx, ad[h].rules[idx], Emitted(s, r));
    }
  }

  lemma MuggleKeys(strata: seq<Prog>, disabled: bool, i: nat, ad: MagicProg, m: MagicProg, f: Symbol)
    requires i < |strata| && StratumDone(strata, disabled, i, ad, m)
    ensures Muggle(f) in m ==> f in strata[i] && f !in Rewritten(strata, disabled, i)
  {
    hide IsRewritten, NoEmptyRules, Called, Rewritten, AdornRules, AdornFixed, CallsDefined;
    if Muggle(f) in m {
      KeysOfM(ad, m, Muggle(f));
    }
  }

  // ----- evaluation can begin -----

  /** One rule of the rewritten stratum: in order, reading only what is there, negation only of what was completed before. */
  ghost predicate GoodRule(strata: seq<Prog>, lifetimes: map<MagicSymbol, nat>, disabled: bool, i: nat, m: MagicProg, r: InlineRule<MagicSymbol>)
    requires i < |strata|
  {
    && WellOrdered(r.body)
    && (forall x :: x in r.body && (x.Rule? || x.NegatedRule?) ==> Present(strata, lifetimes, disabled, i, m, x.name))
    && (forall x :: x in r.body && x.NegatedRule? ==> x.name !in m)
  }

  lemma AtomsGood(prog: Prog, strata: seq<Prog>, lifetimes: map<MagicSymbol, nat>, disabled: bool, i: nat, ad: MagicProg, m: MagicProg,
                  h: MagicSymbol, idx: nat, k: nat, head: seq<Symbol>, aggr: seq<Option<Aggregation>>)
    requires Stage(prog, strata, lifetimes, disabled, i, ad, m)
    requires h in ad && ad[h].Rules? && idx < |ad[h].rules| && k <= |ad[h].rules[idx].body|
    ensures GoodRule(strata, lifetimes, disabled, i, m, InlineRule(head, aggr, RewriteBody(h, idx, ad[h].rules[idx], k).atoms))
  {
    hide WellFormed, Accepted, Rewritten, Called, IsRewritten, NoEmptyRules, Present, IsAdorned, RewriteBody, WellOrdered;
    StageOwn(prog, strata, lifetimes, disabled, i, ad, m, h, idx);
    var r := ad[h].rules[idx];
    AtomsWellOrdered(h, idx, r, k);
    forall x | x in RewriteBody(h, idx, r, k).atoms && (x.Rule? || x.NegatedRule?)
      ensures Present(strata, lifetimes, disabled, i, m, x.name) && (x.NegatedRule? ==> x.name !in m)
    {
      AtomsFrom(ad, m, h, idx, r, k, x);
      if x in r.body {
        AdornedReads(prog, strata, lifetimes, disabled, i, ad, m, h, idx, x);
      } else {
        InMPresent(strata, lifetimes, disabled, i, m, x.name);
      }
    }
  }

  lemma OneAtomGood(strata: seq<Prog>, lifetimes: map<MagicSymbol, nat>, disabled: bool, i: nat, m: MagicProg, head: seq<Symbol>, app: Atom<MagicSymbol>)
    requires i < |strata| && app.Rule? && app.name in m
    ensures GoodRule(strata, lifetimes, disabled, i, m, PlainRule(head, [app]))
  {
    OneAtomOrdered(app);
    InMPresent(strata, lifetimes, disabled, i, m, app.name);
  }

  /** A rule of the rewritten stratum is good, and aggregates only as the final rule of a head that does. */
  lemma RuleGood(prog: Prog, strata: seq<Prog>, lifetimes: map<MagicSymbol, nat>, disabled: bool, i: nat, ad: MagicProg, m: MagicProg,
                 s: MagicSymbol, r: InlineRule<MagicSymbol>)
    requires Stage(prog, strata, lifetimes, disabled, i, ad, m) && HasRule(m, s, r)
    ensures GoodRule(strata, lifetimes, disabled, i, m, r)
    ensures if s in ad then ad[s].Rules? && KindOf(r.aggr) == HeadKind(strata[i], s.inner) else KindOf(r.aggr) == NoAggr
  {
    hide WellFormed, Rewritten, Called, NoEmptyRules, GoodRule, RewriteRule, Places, Ordered, KeptWhileUsed, KindOf, AdornFixed, CallsDefined, RewriteBody;
    assert EmittedBySome(ad, Emitted(s, r));
    var h, idx: nat :| Emits(ad, Emitted(s, r), h, idx);
    var ar := ad[h].rules[idx];
    RuleEmits(h, idx, ar, Emitted(s, r));
    StageOwn(prog, strata, lifetimes, disabled, i, ad, m, h, idx);
    if Emitted(s, r) == FinalRule(h, idx, ar) {
      AtomsGood(prog, strata, lifetimes, disabled, i, ad, m, h, idx, |ar.body|, ar.head, ar.aggr);
      StageRules(prog, strata, i, h.inner);
    } else {
      assert s.Sup? || s.Input?;
      PlainKind(r.head);
      if h.HasBoundAdornment() && Emitted(s, r) == StartRule(h, idx, ar) {
        assert h.Magic?;
        InputInM(ad, m, h);
        var args := Select(ar.head, h.MagicAdornment());
        OneAtomGood(strata, lifetimes, disabled, i, m, args, Rule(InputName(h), args));
      } else {
        var k: nat :| k < |ar.body| && IsCallRule(h, idx, ar, k, Emitted(s, r));
        var st := RewriteBody(h, idx, ar, k);
        SupInM(ad, m, h, idx, ar, k);
        if Emitted(s, r) == SupRule(h, idx, ar, k) {
          AtomsGood(prog, strata, lifetimes, disabled, i, ad, m, h, idx, k, r.head, r.aggr);
        } else {
          OneAtomGood(strata, lifetimes, disabled, i, m, r.head, Rule(SupName(h, idx, st.sups), st.seen));
        }
      }
    }
  }

  lemma PlainKind(head: seq<Symbol>)
    ensures KindOf(seq(|head|, _ => None)) == NoAggr
  {
  }

  /** A relation is computed once exactly when the rule it comes from is. */
  lemma OnceIs(prog: Prog, strata: seq<Prog>, lifetimes: map<MagicSymbol, nat>, disabled: bool, i: nat, ad: MagicProg, m: MagicProg, s: MagicSymbol)
    requires Stage(prog, strata, lifetimes, disabled, i, ad, m) && s in m
    ensures IsOnce(m[s]) <==> s.Muggle? && s.inner in strata[i] && IsOnce(strata[i][s.inner])
    ensures m[s].Rules? && !IsOnce(m[s]) ==> m[s].rules != [] && KindOf(m[s].rules[0].aggr) == NoAggr
    ensures m[s].Rules? && IsOnce(m[s]) ==> forall l :: 0 <= l < |m[s].rules| ==> !IsPlain(m[s].rules[l])
  {
    hide Rewritten, Called, IsRewritten, Places, Ordered, KeptWhileUsed, KindOf, AdornRules, AdornFixed, CallsDefined, GoodRule, ReadsOf;
    KeysOfM(ad, m, s);
    if m[s].Rules? {
      forall l | 0 <= l < |m[s].rules|
        ensures if s in ad then ad[s].Rules? && KindOf(m[s].rules[l].aggr) == HeadKind(strata[i], s.inner)
                else KindOf(m[s].rules[l].aggr) == NoAggr
      {
        assert HasRule(m, s, m[s].rules[l]);
        RuleGood(prog, strata, lifetimes, disabled, i, ad, m, s, m[s].rules[l]);
      }
      forall l | 0 <= l < |m[s].rules|
        ensures IsPlain(m[s].rules[l]) <==> KindOf(m[s].rules[l].aggr) == NoAggr
      {
        PlainIsNoAggr(m[s].rules[l]);
      }
      if s in ad {
        StageRules(prog, strata, i, s.inner);
        if s.Magic? {
          MagicIsPlain(prog, strata, lifetimes, disabled, i, ad, m, s);
        }
      }
    }
  }

  lemma PlainIsNoAggr<S>(r: InlineRule<S>)
    ensures IsPlain(r) <==> KindOf(r.aggr) == NoAggr
  {
  }

  /** Rules that aggregate are never rewritten. */
  lemma MagicIsPlain(prog: Prog, strata: seq<Prog>, lifetimes: map<MagicSymbol, nat>, disabled: bool, i: nat, ad: MagicProg, m: MagicProg, s: MagicSymbol)
    requires Stage(prog, strata, lifetimes, disabled, i, ad, m) && s in ad && s.Magic?
    requires strata[i][s.inner].Rules? && strata[i][s.inner].rules != []
    ensures KindOf(strata[i][s.inner].rules[0].aggr) == NoAggr
  {
    hide Called, IsRewritten, Accepted, WellFormed, AdornRules, AdornFixed, CallsDefined, ExemptBefore;
    assert s.inner in Rewritten(strata, disabled, i);
    assert s.inner !in AggrRules(strata[i], disabled);
    AggrKindHas(strata[i][s.inner].rules);
  }

  lemma AggrKindHas(rules: seq<InlineRule<Symbol>>)
    requires rules != [] && !HasAggr(rules)
    ensures KindOf(rules[0].aggr) == NoAggr
  {
  }

  /** A rewritten stratum is what evaluation expects, as long as everything it reads is there. */
  lemma StageEvaluable(prog: Prog, strata: seq<Prog>, lifetimes: map<MagicSymbol, nat>, disabled: bool, i: nat, ad: MagicProg, m: MagicProg, known: set<MagicSymbol>)
    requires i < |strata| && Stage(prog, strata, lifetimes, disabled, i, ad, m)
    requires forall s :: Present(strata, lifetimes, disabled, i, m, s) ==> s in known
    ensures Evaluable(m, known)
  {
    hide Stage, Present, KindOf, IsOnce, IsPlain, WellOrdered, Count;
    forall s | s in m
      ensures s in known
    {
      InMPresent(strata, lifetimes, disabled, i, m, s);
    }
    forall s | s in m && m[s].Rules?
      ensures m[s].rules != []
      ensures if IsOnce(m[s]) then forall l :: 0 <= l < |m[s].rules| ==> !IsPlain(m[s].rules[l])
              else KindOf(m[s].rules[0].aggr) == NoAggr && RulesOk(m[s].rules, known)
      ensures !IsOnce(m[s]) ==> NegationFree(m[s].rules, m.Keys)
    {
      OnceIs(prog, strata, lifetimes, disabled, i, ad, m, s);
      StageNoEmpty(prog, strata, lifetimes, disabled, i, ad, m, s);
      if !IsOnce(m[s]) {
        forall l | 0 <= l < |m[s].rules|
          ensures WellOrdered(m[s].rules[l].body) && IsPlain(m[s].rules[l])
          ensures forall n :: Count(m[s].rules[l].body, n) > 0 ==> n in known
          ensures forall j :: 0 <= j < |m[s].rules[l].body| && m[s].rules[l].body[j].NegatedRule? ==> m[s].rules[l].body[j].name !in m.Keys
        {
          PlainRuleOk(prog, strata, lifetimes, disabled, i, ad, m, known, s, l);
        }
      }
    }
  }

  lemma StageNoEmpty(prog: Prog, strata: seq<Prog>, lifetimes: map<MagicSymbol, nat>, disabled: bool, i: nat, ad: MagicProg, m: MagicProg, s: MagicSymbol)
    requires Stage(prog, strata, lifetimes, disabled, i, ad, m) && s in m && m[s].Rules?
    ensures m[s].rules != []
  {
    hide WellFormed, Accepted, IsAdorned, IsRewritten, Called;
  }

  lemma PlainRuleOk(prog: Prog, strata: seq<Prog>, lifetimes: map<MagicSymbol, nat>, disabled: bool, i: nat, ad: MagicProg, m: MagicProg,
                    known: set<MagicSymbol>, s: MagicSymbol, l: nat)
    requires Stage(prog, strata, lifetimes, disabled, i, ad, m)
    requires forall s :: Present(strata, lifetimes, disabled, i, m, s) ==> s in known
    requires s in m && m[s].Rules? && !IsOnce(m[s]) && l < |m[s].rules|
    ensures WellOrdered(m[s].rules[l].body) && IsPlain(m[s].rules[l])
    ensures forall n :: Count(m[s].rules[l].body, n) > 0 ==> n in known
    ensures forall j :: 0 <= j < |m[s].rules[l].body| && m[s].rules[l].body[j].NegatedRule? ==> m[s].rules[l].body[j].name !in m.Keys
  {
    hide Stage, Present, KindOf, WellOrdered, Count, IsPlain;
    var r := m[s].rules[l];
    assert HasRule(m, s, r);
    RuleGood(prog, strata, lifetimes, disabled, i, ad, m, s, r);
    KindStays(prog, strata, lifetimes, disabled, i, ad, m, s, l);
    PlainIsNoAggr(r);
    forall n | Count(r.body, n) > 0
      ensures n in known
    {
      var j := CountFinds(r.body, n);
      assert r.body[j] in r.body;
    }
  }

  /** All rules of a relation aggregate alike. */
  lemma KindStays(prog: Prog, strata: seq<Prog>, lifetimes: map<MagicSymbol, nat>, disabled: bool, i: nat, ad: MagicProg, m: MagicProg, s: MagicSymbol, l: nat)
    requires Stage(prog, strata, lifetimes, disabled, i, ad, m) && s in m && m[s].Rules? && !IsOnce(m[s]) && l < |m[s].rules|
    ensures KindOf(m[s].rules[l].aggr) == NoAggr
  {
    hide Stage, KindOf, GoodRule, IsOnce;
    OnceIs(prog, strata, lifetimes, disabled, i, ad, m, s);
    assert HasRule(m, s, m[s].rules[0]) && HasRule(m, s, m[s].rules[l]);
    RuleGood(prog, strata, lifetimes, disabled, i, ad, m, s, m[s].rules[0]);
    RuleGood(prog, strata, lifetimes, disabled, i, ad, m, s, m[s].rules[l]);
  }

  /** Whatever a relation of the rewritten stratum reads is there when the stratum is evaluated. */
  lemma StoresPresent(prog: Prog, strata: seq<Prog>, lifetimes: map<MagicSymbol, nat>, disabled: bool, i: nat, ad: MagicProg, m: MagicProg,
                      s: MagicSymbol, n: MagicSymbol)
    requires Stage(prog, strata, lifetimes, disabled, i, ad, m) && s in m && n in ReadsOf(m[s])
    ensures Present(strata, lifetimes, disabled, i, m, n)
  {
    hide Stage, Present, WellOrdered;
    if m[s].Rules? {
      var l, j :| 0 <= l < |m[s].rules| && 0 <= j < |m[s].rules[l].body| &&
                  (m[s].rules[l].body[j].Rule? || m[s].rules[l].body[j].NegatedRule?) && m[s].rules[l].body[j].name == n;
      assert HasRule(m, s, m[s].rules[l]);
      RuleGood(prog, strata, lifetimes, disabled, i, ad, m, s, m[s].rules[l]);
      assert m[s].rules[l].body[j] in m[s].rules[l].body;
    } else {
      FixedPresent(prog, strata, lifetimes, disabled, i, ad, m, s, n);
    }
  }

  lemma FixedPresent(prog: Prog, strata: seq<Prog>, lifetimes: map<MagicSymbol, nat>, disabled: bool, i: nat, ad: MagicProg, m: MagicProg,
                     s: MagicSymbol, n: MagicSymbol)
    requires Stage(prog, strata, lifetimes, disabled, i, ad, m) && s in m && m[s].Fixed? && n in ReadsOf(m[s])
    ensures Present(strata, lifetimes, disabled, i, m, n)
  {
    hide WellFormed, KeptWhileUsed, Present, IsRewritten, NoEmptyRules, Called, CallsDefined, AdornRules, Rewritten;
    var args := strata[i][s.inner].ruleArgs;
    assert m[s] == AdornFixed(strata[i][s.inner]);
    var l :| 0 <= l < |m[s].ruleArgs| && m[s].ruleArgs[l].InMem? && m[s].ruleArgs[l].arg == n;
    assert m[s].ruleArgs[l] == AdornArg(args[l]);
    var f := args[l].arg;
    assert f in ReadsOf(strata[i][s.inner]);
    assert InMem(f) in args;
    StageRules(prog, strata, i, s.inner);
    assert Poisons(prog, s.inner, f) && Depends(prog, s.inner, f);
    assert InStratum(strata, s.inner, i) && !InStratum(strata, f, i);
    NotInRewritten(strata, disabled, i, f);
    MugglePresent(prog, strata, lifetimes, disabled, i, ad, m, s.inner, f);
  }

  lemma NotInRewritten(strata: seq<Prog>, disabled: bool, i: nat, f: Symbol)
    requires i < |strata| && !InStratum(strata, f, i)
    ensures f !in Rewritten(strata, disabled, i)
  {
  }
}
