/** From an accepted program to the rows of the query: strata, rewritten, evaluated in turn (query/eval.rs, query/compile.rs). */
module Pipeline {
  import opened Wrappers
  import opened Values
  import opened Exprs
  import opened Program
  import opened Datalog
  import opened Stratify
  import opened MagicSets
  import opened MagicCorrect
  import opened MagicRewrite
  import opened MagicFinite
  import opened BodyEval
  import opened SemiNaive
  import opened StrataMagic
  import opened StageReady

  // ----- what a stratified program means -----

  /** The relation belongs to a stratum that is evaluated before stratum `i`. */
  ghost predicate Before(strata: seq<Prog>, i: nat, k: Symbol) {
    exists j :: i < j && InStratum(strata, k, j)
  }

  /** The tables that a rule reads. */
  function Inputs(rf: RulesOrFixed<Symbol>, tabs: Tables<Symbol>): Tables<Symbol> {
    map f | f in ReadsOf(rf) && f in tabs :: tabs[f]
  }

  /** Where stratum `i` starts: completed relations, and what fixed rules and aggregations make of them. */
  ghost function StageBase(strata: seq<Prog>, once: OnceFn<Symbol>, i: nat, mean: Tables<Symbol>): DB<Symbol>
    requires i < |strata|
  {
    iset f: Fact<Symbol> |
      || (f in Facts(mean) && Before(strata, i, f.name))
      || (f.name in strata[i] && IsOnce(strata[i][f.name]) && f.tuple in once(f.name, Inputs(strata[i][f.name], mean)))
  }

  /** The tables of a program: stratum by stratum, what follows from the strata evaluated before and no more. */
  ghost predicate IsMeaning(w: World, strata: seq<Prog>, once: OnceFn<Symbol>, mean: Tables<Symbol>) {
    && (forall k :: k in mean <==> InSomeStratum(strata, k))
    && (forall i: nat, k, t :: i < |strata| && k in strata[i] && k in mean ==>
          (t in mean[k] <==> Fact(k, t) in Least(w, strata[i], StageBase(strata, once, i, mean))))
  }

  // ----- only what is read matters -----

  ghost predicate ReadsWithin<S(!new)>(p: Rules<S>, names: iset<S>) {
    && (forall k :: k in p ==> k in names)
    && forall k, r, x :: HasRule(p, k, r) && x in r.body && (x.Rule? || x.NegatedRule?) ==> x.name in names
  }

  ghost predicate AgreeOnNames<S(!new)>(a: DB<S>, b: DB<S>, names: iset<S>) {
    forall f: Fact<S> :: f.name in names ==> (f in a <==> f in b)
  }

  lemma HoldsOnNames<S(!new)>(w: World, pos: DB<S>, pos': DB<S>, neg: DB<S>, neg': DB<S>, names: iset<S>, a: Atom<S>, env: Env)
    requires AgreeOnNames(pos, pos', names) && AgreeOnNames(neg, neg', names)
    requires a.Rule? || a.NegatedRule? ==> a.name in names
    ensures Holds(w, pos, neg, a, env) <==> Holds(w, pos', neg', a, env)
  {
    match a
    case Rule(n, args) =>
    case NegatedRule(n, args) => assert forall t :: Fact(n, t) in neg <==> Fact(n, t) in neg';
    case _ =>
  }

  lemma DerivesOnNames<S(!new)>(w: World, p: Rules<S>, pos: DB<S>, pos': DB<S>, neg: DB<S>, neg': DB<S>, names: iset<S>, f: Fact<S>)
    requires ReadsWithin(p, names) && AgreeOnNames(pos, pos', names) && AgreeOnNames(neg, neg', names)
    requires Derives(w, p, pos, neg, f)
    ensures Derives(w, p, pos', neg', f) && f.name in names
  {
    hide Holds, IsPlain, BodyBinds, AgreeOnNames;
    var r, env :| HasRule(p, f.name, r) && Yields(w, pos, neg, r, env, f.tuple);
    forall l | 0 <= l < |r.body|
      ensures Holds(w, pos', neg', r.body[l], env)
    {
      assert r.body[l] in r.body;
      HoldsOnNames(w, pos, pos', neg, neg', names, r.body[l], env);
    }
    assert Yields(w, pos', neg', r, env, f.tuple);
  }

  lemma LeastWithin<S(!new)>(w: World, p: Rules<S>, a: DB<S>, b: DB<S>, names: iset<S>)
    requires ReadsWithin(p, names) && AgreeOnNames(a, b, names)
    ensures forall f: Fact<S> :: f.name in names && f in Least(w, p, b) ==> f in Least(w, p, a)
  {
    hide ReadsWithin, Derives, Least;
    var la := Least(w, p, a);
    LeastIsModel(w, p, a);
    var m := iset f: Fact<S> | if f.name in names then f in la else f in b;
    forall f | Derives(w, p, m, b, f)
      ensures f in m
    {
      DerivesOnNames(w, p, m, la, b, a, names, f);
    }
    assert IsModel(w, p, b, m);
    LeastInModel(w, p, b, m);
  }

  /** Two bases that agree on what the rules read give the same relations. */
  lemma LeastAgrees<S(!new)>(w: World, p: Rules<S>, a: DB<S>, b: DB<S>, names: iset<S>)
    requires ReadsWithin(p, names) && AgreeOnNames(a, b, names)
    ensures AgreeOnNames(Least(w, p, a), Least(w, p, b), names)
  {
    hide ReadsWithin, Least;
    LeastWithin(w, p, a, b, names);
    LeastWithin(w, p, b, a, names);
  }

  /** A smaller base that agrees on what the rules read gives no more facts. */
  lemma LeastShrinks<S(!new)>(w: World, p: Rules<S>, a: DB<S>, b: DB<S>, names: iset<S>)
    requires ReadsWithin(p, names) && AgreeOnNames(a, b, names) && a <= b
    ensures Least(w, p, a) <= Least(w, p, b)
  {
    hide ReadsWithin, Derives, Least;
    var lb := Least(w, p, b);
    LeastIsModel(w, p, b);
    forall f | Derives(w, p, lb, a, f)
      ensures f in lb
    {
      DerivesOnNames(w, p, lb, lb, a, b, names, f);
    }
    assert IsModel(w, p, a, lb);
    LeastInModel(w, p, a, lb);
  }

  // ----- aggregations and fixed rules -----

  /** What is computed once reads only relations completed before. */
  lemma OnceReadsCompleted(prog: Prog, strata: seq<Prog>, lifetimes: map<MagicSymbol, nat>, i: nat, k: Symbol, f: Symbol)
    requires WellFormed(prog) && Accepted(prog, strata, lifetimes)
    requires InStratum(strata, k, i) && IsOnce(prog[k]) && f in ReadsOf(prog[k])
    ensures Before(strata, i, f) && f !in strata[i]
  {
    hide RulesWellFormed, KeptWhileUsed, ReadsOf, Depends, Poisons, IsOnce, AllMeet;
    assert f in prog;
    DependsIsReads(prog, k, f);
    OnceNeedsComplete(prog, k, f);
    ReadIsPlaced(prog, strata, k, f, i);
    var j := StratumOf(strata, f);
    assert i < j && !InStratum(strata, f, i);
  }

  lemma OnceNeedsComplete(prog: Prog, k: Symbol, f: Symbol)
    requires k in prog && IsOnce(prog[k]) && Depends(prog, k, f) && !(f == k && MeetReadsItself(prog, k))
    ensures Poisons(prog, k, f)
  {
    DependsIsReads(prog, k, f);
    if prog[k].Rules? {
      KindHasAggr(prog[k].rules);
      var neg :| Applies(prog[k].rules, f, neg);
      assert NeedsComplete(prog, k, f, neg);
    }
  }

  lemma KindHasAggr(rules: seq<InlineRule<Symbol>>)
    requires rules != [] && KindOf(rules[0].aggr) == Normal
    ensures HasAggr(rules)
  {
  }

  /** How fixed rules and aggregations compute their rows from the stores: they see the relations they read, by plain name. */
  function MagicOnce(prog: Prog, once: OnceFn<Symbol>): OnceFn<MagicSymbol> {
    (s: MagicSymbol, tabs: Tables<MagicSymbol>) =>
      if s.Muggle? && s.inner in prog then once(s.inner, map f | f in ReadsOf(prog[s.inner]) && Muggle(f) in tabs :: tabs[Muggle(f)]) else {}
  }

  /** The stores when stratum `i` starts: its own are empty, the others hold what their relations mean. */
  ghost predicate StartsRight(strata: seq<Prog>, lifetimes: map<MagicSymbol, nat>, disabled: bool, i: nat, m: MagicProg, mean: Tables<Symbol>, tabs: Tables<MagicSymbol>)
    requires i < |strata|
  {
    && FreshStart(m, tabs)
    && (forall s :: s in tabs && s !in m ==> s.Muggle? && Before(strata, i, s.inner) && s.inner in mean && tabs[s] == mean[s.inner])
    && (forall s :: Present(strata, lifetimes, disabled, i, m, s) ==> s in tabs)
  }

  lemma OnceSees(prog: Prog, strata: seq<Prog>, lifetimes: map<MagicSymbol, nat>, disabled: bool, i: nat, ad: MagicProg, m: MagicProg,
                 once: OnceFn<Symbol>, mean: Tables<Symbol>, tabs: Tables<MagicSymbol>, k: Symbol)
    requires i < |strata| && Stage(prog, strata, lifetimes, disabled, i, ad, m) && StartsRight(strata, lifetimes, disabled, i, m, mean, tabs)
    requires k in strata[i] && IsOnce(strata[i][k])
    ensures MagicOnce(prog, once)(Muggle(k), tabs) == once(k, Inputs(strata[i][k], mean))
  {
    hide StratumDone, Present, IsOnce, ReadsOf, RulesWellFormed, Ordered, KeptWhileUsed;
    StageRules(prog, strata, i, k);
    var a := map f | f in ReadsOf(prog[k]) && Muggle(f) in tabs :: tabs[Muggle(f)];
    var b := Inputs(strata[i][k], mean);
    forall f | f in ReadsOf(prog[k])
      ensures Muggle(f) in tabs && f in mean && tabs[Muggle(f)] == mean[f]
    {
      assert InStratum(strata, k, i);
      OnceReadsCompleted(prog, strata, lifetimes, i, k, f);
      ElsewhereNotRewritten(strata, disabled, i, f);
      MugglePresent(prog, strata, lifetimes, disabled, i, ad, m, k, f);
      ElsewhereNotInM(strata, disabled, i, ad, m, f);
    }
    assert a.Keys == b.Keys;
    assert a == b;
  }

  lemma ElsewhereNotRewritten(strata: seq<Prog>, disabled: bool, i: nat, f: Symbol)
    requires i < |strata| && f !in strata[i]
    ensures f !in Rewritten(strata, disabled, i)
  {
  }

  lemma ElsewhereNotInM(strata: seq<Prog>, disabled: bool, i: nat, ad: MagicProg, m: MagicProg, f: Symbol)
    requires i < |strata| && StratumDone(strata, disabled, i, ad, m) && f !in strata[i]
    ensures Muggle(f) !in m
  {
    hide StratumDone;
    MuggleKeys(strata, disabled, i, ad, m, f);
  }

  // ----- one stratum -----

  /** Everything that the rewritten stratum computes or reads. */
  ghost function StageNames(strata: seq<Prog>, lifetimes: map<MagicSymbol, nat>, disabled: bool, i: nat, m: MagicProg): iset<MagicSymbol>
    requires i < |strata|
  {
    iset s | Present(strata, lifetimes, disabled, i, m, s)
  }

  lemma StageReadsWithin(prog: Prog, strata: seq<Prog>, lifetimes: map<MagicSymbol, nat>, disabled: bool, i: nat, ad: MagicProg, m: MagicProg)
    requires i < |strata| && Stage(prog, strata, lifetimes, disabled, i, ad, m)
    ensures ReadsWithin(m, StageNames(strata, lifetimes, disabled, i, m))
  {
    hide Stage, Present, WellOrdered;
    forall k | k in m
      ensures Present(strata, lifetimes, disabled, i, m, k)
    {
      InMPresent(strata, lifetimes, disabled, i, m, k);
    }
    forall k, r, x | HasRule(m, k, r) && x in r.body && (x.Rule? || x.NegatedRule?)
      ensures Present(strata, lifetimes, disabled, i, m, x.name)
    {
      RuleGood(prog, strata, lifetimes, disabled, i, ad, m, k, r);
    }
  }

  /** Unfolds the base of the evaluation at one fact. */
  lemma BaseAt(m: MagicProg, once: OnceFn<MagicSymbol>, tabs: Tables<MagicSymbol>, s: MagicSymbol, t: Tuple)
    requires FreshStart(m, tabs)
    ensures s in m ==> (Fact(s, t) in Base(m, once, tabs) <==> IsOnce(m[s]) && t in once(s, tabs))
    ensures s !in m ==> (Fact(s, t) in Base(m, once, tabs) <==> s in tabs && t in tabs[s])
  {
  }

  lemma StageBaseAt(prog: Prog, strata: seq<Prog>, once: OnceFn<Symbol>, i: nat, mean: Tables<Symbol>, k: Symbol, t: Tuple)
    requires i < |strata| && Places(prog, strata)
    ensures k in strata[i] ==>
      (Fact(k, t) in StageBase(strata, once, i, mean) <==> IsOnce(strata[i][k]) && t in once(k, Inputs(strata[i][k], mean)))
    ensures k !in strata[i] ==> (Fact(k, t) in StageBase(strata, once, i, mean) <==> Before(strata, i, k) && k in mean && t in mean[k])
  {
    hide IsOnce, Inputs, Reachable;
    assert k in strata[i] ==> InStratum(strata, k, i);
  }

  /** The evaluation starts from the completed relations under their plain names. */
  lemma BasesAgreeAt(prog: Prog, strata: seq<Prog>, lifetimes: map<MagicSymbol, nat>, disabled: bool, i: nat, ad: MagicProg, m: MagicProg,
                     once: OnceFn<Symbol>, mean: Tables<Symbol>, tabs: Tables<MagicSymbol>, s: MagicSymbol, t: Tuple)
    requires i < |strata| && Stage(prog, strata, lifetimes, disabled, i, ad, m) && StartsRight(strata, lifetimes, disabled, i, m, mean, tabs)
    ensures Fact(s, t) in Base(m, MagicOnce(prog, once), tabs) ==> Fact(s, t) in MuggleBase(StageBase(strata, once, i, mean))
    ensures Present(strata, lifetimes, disabled, i, m, s) && Fact(s, t) in MuggleBase(StageBase(strata, once, i, mean)) ==>
      Fact(s, t) in Base(m, MagicOnce(prog, once), tabs)
  {
    hide WellFormed, StratumDone, Present, IsOnce, Ordered, KeptWhileUsed, Places, Base, StageBase, MagicOnce, Before, Inputs;
    BaseAt(m, MagicOnce(prog, once), tabs, s, t);
    if s in m {
      OnceIs(prog, strata, lifetimes, disabled, i, ad, m, s);
      if s.Muggle? {
        MuggleKeys(strata, disabled, i, ad, m, s.inner);
        StageBaseAt(prog, strata, once, i, mean, s.inner, t);
        if IsOnce(m[s]) {
          OnceSees(prog, strata, lifetimes, disabled, i, ad, m, once, mean, tabs, s.inner);
        }
      }
    } else if s.Muggle? {
      StageBaseAt(prog, strata, once, i, mean, s.inner, t);
      if s in tabs || Present(strata, lifetimes, disabled, i, m, s) {
        BeforeElsewhere(prog, strata, i, s.inner);
      }
    }
  }

  lemma BeforeElsewhere(prog: Prog, strata: seq<Prog>, i: nat, k: Symbol)
    requires i < |strata| && Places(prog, strata) && Before(strata, i, k)
    ensures k !in strata[i]
  {
    hide Reachable;
    var j :| i < j && InStratum(strata, k, j);
    assert k in strata[i] ==> InStratum(strata, k, i);
  }

  lemma BaseNotRewritten(prog: Prog, strata: seq<Prog>, lifetimes: map<MagicSymbol, nat>, disabled: bool, i: nat, once: OnceFn<Symbol>, mean: Tables<Symbol>,
                         f: Fact<Symbol>)
    requires i < |strata| && WellFormed(prog) && Accepted(prog, strata, lifetimes) && f in StageBase(strata, once, i, mean)
    ensures f.name !in Rewritten(strata, disabled, i)
  {
    hide Normalised, Ordered, KeptWhileUsed, Places, Inputs, ExemptBefore, Before;
    if f.name in strata[i] {
      StageBaseAt(prog, strata, once, i, mean, f.name, f.tuple);
      StageRules(prog, strata, i, f.name);
      assert InStratum(strata, f.name, i);
      if strata[i][f.name].Fixed? {
        FixedExempt(prog, strata, lifetimes, disabled, i, f.name);
      } else {
        KindHasAggr(strata[i][f.name].rules);
      }
    }
  }

  /** The rewrite applies to the stratum as it starts. */
  lemma StageRewrites(prog: Prog, strata: seq<Prog>, lifetimes: map<MagicSymbol, nat>, disabled: bool, i: nat, ad: MagicProg, m: MagicProg,
                      once: OnceFn<Symbol>, mean: Tables<Symbol>)
    requires i < |strata| && Stage(prog, strata, lifetimes, disabled, i, ad, m)
    ensures Rewrites(strata[i], Rewritten(strata, disabled, i), StageBase(strata, once, i, mean), ad, m)
  {
    StageReadyFor(prog, strata, lifetimes, disabled, i, ad, m);
    hide WellFormed, Accepted, RuleReady, IsAdorned, IsRewritten, Rewritten, StageBase;
    forall f | f in StageBase(strata, once, i, mean)
      ensures f.name !in Rewritten(strata, disabled, i)
    {
      BaseNotRewritten(prog, strata, lifetimes, disabled, i, once, mean, f);
    }
  }

  /** Evaluating the rewritten stratum gives plainly named relations exactly their meaning. */
  lemma StageExact(w: World, prog: Prog, strata: seq<Prog>, lifetimes: map<MagicSymbol, nat>, disabled: bool, i: nat, ad: MagicProg, m: MagicProg,
                   once: OnceFn<Symbol>, mean: Tables<Symbol>, tabs: Tables<MagicSymbol>, k: Symbol, t: Tuple)
    requires i < |strata| && Stage(prog, strata, lifetimes, disabled, i, ad, m) && StartsRight(strata, lifetimes, disabled, i, m, mean, tabs)
    requires IsMeaning(w, strata, once, mean) && k in strata[i] && k !in Rewritten(strata, disabled, i) && k in mean
    ensures Fact(Muggle(k), t) in Least(w, m, Base(m, MagicOnce(prog, once), tabs)) <==> t in mean[k]
  {
    hide Stage, StartsRight, Present, Base, MagicOnce, StageBase, Rewritten, Least, ReadsWithin, MuggleBase, Rewrites;
    var names := StageNames(strata, lifetimes, disabled, i, m);
    var a, b := Base(m, MagicOnce(prog, once), tabs), MuggleBase(StageBase(strata, once, i, mean));
    StageReadsWithin(prog, strata, lifetimes, disabled, i, ad, m);
    forall f: Fact<MagicSymbol> | f.name in names
      ensures f in a <==> f in b
    {
      BasesAgreeAt(prog, strata, lifetimes, disabled, i, ad, m, once, mean, tabs, f.name, f.tuple);
    }
    LeastAgrees(w, m, a, b, names);
    StageHeadInM(prog, strata, lifetimes, disabled, i, ad, m, k);
    InMPresent(strata, lifetimes, disabled, i, m, Muggle(k));
    assert Fact(Muggle(k), t).name in names;
    StageRewrites(prog, strata, lifetimes, disabled, i, ad, m, once, mean);
    MagicPreserves(w, strata[i], Rewritten(strata, disabled, i), StageBase(strata, once, i, mean), ad, m, k, t);
  }

  lemma StageHeadInM(prog: Prog, strata: seq<Prog>, lifetimes: map<MagicSymbol, nat>, disabled: bool, i: nat, ad: MagicProg, m: MagicProg, k: Symbol)
    requires i < |strata| && Stage(prog, strata, lifetimes, disabled, i, ad, m) && k in strata[i] && k !in Rewritten(strata, disabled, i)
    ensures Muggle(k) in m
  {
    hide WellFormed, Accepted, IsRewritten, Rewritten, Called;
    MuggleHead(strata[i], Rewritten(strata, disabled, i), ad, k);
    HeadInM(prog, strata, lifetimes, disabled, i, ad, m, Muggle(k));
  }

  // ----- the strata in turn -----

  method AddStores(names: set<MagicSymbol>, stores: Stores<MagicSymbol>) returns (r: Stores<MagicSymbol>)
    requires Separate(stores)
    ensures r.Keys == stores.Keys + names && Separate(r)
    ensures forall n :: n in names ==> fresh(r[n]) && r[n].Valid() && r[n].total == {} && r[n].Delta() == {}
    ensures forall n :: n in stores && n !in names ==> r[n] == stores[n]
  {
    r := stores;
    var todo := names;
    while todo != {}
      invariant todo <= names && r.Keys == stores.Keys + (names - todo) && Separate(r)
      invariant forall n :: n in names - todo ==> fresh(r[n]) && r[n].Valid() && r[n].total == {} && r[n].Delta() == {}
      invariant forall n :: n in stores && n !in names - todo ==> r[n] == stores[n]
    {
      var n :| n in todo;
      var store := new EpochStore();
      r := r[n := store];
      todo := todo - {n};
    }
  }

  /** Drops the stores that nothing will read any more. */
  function Retain(stores: Stores<MagicSymbol>, lifetimes: map<MagicSymbol, nat>, step: nat): Stores<MagicSymbol> {
    map n | n in stores && n in lifetimes && step <= lifetimes[n] :: stores[n]
  }

  /** After `step` strata have been evaluated: plainly named stores hold what their relations mean, and those still needed are there. */
  ghost predicate Holding(strata: seq<Prog>, lifetimes: map<MagicSymbol, nat>, disabled: bool, mean: Tables<Symbol>, step: nat, tabs: Tables<MagicSymbol>) {
    && (forall k :: Muggle(k) in tabs ==> k in mean && tabs[Muggle(k)] == mean[k] && exists j :: |strata| - 1 - step < j && InStratum(strata, k, j))
    && (forall k, j: nat :: (&& |strata| - 1 - step < j && InStratum(strata, k, j) && k !in Rewritten(strata, disabled, j)
                             && (j == |strata| - step || (Muggle(k) in lifetimes && step <= lifetimes[Muggle(k)]))) ==> Muggle(k) in tabs)
  }

  lemma StartHolding(strata: seq<Prog>, lifetimes: map<MagicSymbol, nat>, disabled: bool, mean: Tables<Symbol>)
    ensures Holding(strata, lifetimes, disabled, mean, 0, map[])
  {
  }

  /** With the outlived stores dropped and the new ones added, the next stratum starts right. */
  lemma StartsNext(prog: Prog, strata: seq<Prog>, lifetimes: map<MagicSymbol, nat>, disabled: bool, step: nat, ad: MagicProg, m: MagicProg,
                   mean: Tables<Symbol>, before: Tables<MagicSymbol>, kept: Tables<MagicSymbol>, tabs: Tables<MagicSymbol>)
    requires step < |strata| && Stage(prog, strata, lifetimes, disabled, |strata| - 1 - step, ad, m)
    requires Holding(strata, lifetimes, disabled, mean, step, before)
    requires if step == 0 then before == map[] && kept == before
             else kept == map n | n in before && n in lifetimes && step <= lifetimes[n] :: before[n]
    requires tabs.Keys == kept.Keys + m.Keys && (forall s :: s in m ==> tabs[s] == {}) && (forall s :: s in kept && s !in m ==> tabs[s] == kept[s])
    ensures StartsRight(strata, lifetimes, disabled, |strata| - 1 - step, m, mean, tabs)
  {
    hide WellFormed, Normalised, StratumDone, Places, Ordered, Rewritten;
    var i := |strata| - 1 - step;
    forall s | s in tabs && s !in m
      ensures s.Muggle? && Before(strata, i, s.inner) && s.inner in mean && tabs[s] == mean[s.inner]
    {
      assert s in kept;
      assert s in lifetimes;
      assert s == Muggle(s.inner);
    }
    forall s | Present(strata, lifetimes, disabled, i, m, s)
      ensures s in tabs
    {
      if s !in m {
        var j: nat :| i < j && InStratum(strata, s.inner, j) && s.inner !in Rewritten(strata, disabled, j);
        assert s == Muggle(s.inner);
        assert s in before;
        assert s in kept;
      }
    }
  }

  lemma AfterMeaning(w: World, prog: Prog, strata: seq<Prog>, lifetimes: map<MagicSymbol, nat>, disabled: bool, i: nat, ad: MagicProg, m: MagicProg,
                     once: OnceFn<Symbol>, mean: Tables<Symbol>, tabs: Tables<MagicSymbol>, after: Tables<MagicSymbol>, k: Symbol)
    requires i < |strata| && Stage(prog, strata, lifetimes, disabled, i, ad, m)
    requires IsMeaning(w, strata, once, mean) && StartsRight(strata, lifetimes, disabled, i, m, mean, tabs)
    requires SameOutside(m, tabs, after) && Facts(after) == Least(w, m, Base(m, MagicOnce(prog, once), tabs))
    requires Muggle(k) in after
    ensures k in mean && after[Muggle(k)] == mean[k] && exists j :: i - 1 < j && InStratum(strata, k, j)
  {
    hide Stage, StageBase, Base, MagicOnce, Rewritten, Least, Present;
    if Muggle(k) in m {
      StageMuggle(prog, strata, lifetimes, disabled, i, ad, m, k);
      assert InStratum(strata, k, i);
      assert InSomeStratum(strata, k);
      forall t
        ensures t in after[Muggle(k)] <==> t in mean[k]
      {
        assert t in after[Muggle(k)] <==> Fact(Muggle(k), t) in Facts(after);
        StageExact(w, prog, strata, lifetimes, disabled, i, ad, m, once, mean, tabs, k, t);
      }
    } else {
      assert Before(strata, i, k);
      var j :| i < j && InStratum(strata, k, j);
    }
  }

  /** Once a stratum is evaluated, its plainly named stores hold their meaning too. */
  lemma HoldsNext(w: World, prog: Prog, strata: seq<Prog>, lifetimes: map<MagicSymbol, nat>, disabled: bool, step: nat, ad: MagicProg, m: MagicProg,
                  once: OnceFn<Symbol>, mean: Tables<Symbol>, before: Tables<MagicSymbol>, tabs: Tables<MagicSymbol>, after: Tables<MagicSymbol>)
    requires step < |strata| && Stage(prog, strata, lifetimes, disabled, |strata| - 1 - step, ad, m)
    requires IsMeaning(w, strata, once, mean) && Holding(strata, lifetimes, disabled, mean, step, before)
    requires StartsRight(strata, lifetimes, disabled, |strata| - 1 - step, m, mean, tabs)
    requires forall n :: n in before && n in lifetimes && step <= lifetimes[n] ==> n in tabs
    requires SameOutside(m, tabs, after) && Facts(after) == Least(w, m, Base(m, MagicOnce(prog, once), tabs))
    ensures Holding(strata, lifetimes, disabled, mean, step + 1, after)
  {
    hide Stage, StageBase, Base, MagicOnce, Rewritten, Least, Present, StartsRight, IsMeaning, Facts;
    var i: nat := |strata| - 1 - step;
    forall k | Muggle(k) in after
      ensures k in mean && after[Muggle(k)] == mean[k] && exists j :: |strata| - 1 - (step + 1) < j && InStratum(strata, k, j)
    {
      AfterMeaning(w, prog, strata, lifetimes, disabled, i, ad, m, once, mean, tabs, after, k);
    }
    forall k, j: nat | (&& |strata| - 1 - (step + 1) < j && InStratum(strata, k, j) && k !in Rewritten(strata, disabled, j)
                        && (j == |strata| - (step + 1) || (Muggle(k) in lifetimes && step + 1 <= lifetimes[Muggle(k)])))
      ensures Muggle(k) in after
    {
      if j == i {
        InStratumAt(strata, k, i);
        StageHeadInM(prog, strata, lifetimes, disabled, i, ad, m, k);
        StartsWithM(strata, lifetimes, disabled, i, m, mean, tabs);
      } else {
        assert Muggle(k) in before;
        assert Muggle(k) in tabs;
      }
    }
  }

  lemma InStratumAt(strata: seq<Prog>, k: Symbol, i: nat)
    requires InStratum(strata, k, i)
    ensures i < |strata| && k in strata[i]
  {
  }

  lemma StartsWithM(strata: seq<Prog>, lifetimes: map<MagicSymbol, nat>, disabled: bool, i: nat, m: MagicProg, mean: Tables<Symbol>, tabs: Tables<MagicSymbol>)
    requires i < |strata| && StartsRight(strata, lifetimes, disabled, i, m, mean, tabs)
    ensures m.Keys <= tabs.Keys
  {
  }

  lemma StagePlaces(prog: Prog, strata: seq<Prog>, lifetimes: map<MagicSymbol, nat>, disabled: bool, i: nat, ad: MagicProg, m: MagicProg)
    requires Stage(prog, strata, lifetimes, disabled, i, ad, m)
    ensures Places(prog, strata)
  {
  }

  lemma StageMuggle(prog: Prog, strata: seq<Prog>, lifetimes: map<MagicSymbol, nat>, disabled: bool, i: nat, ad: MagicProg, m: MagicProg, k: Symbol)
    requires i < |strata| && Stage(prog, strata, lifetimes, disabled, i, ad, m) && Muggle(k) in m
    ensures k in strata[i] && k !in Rewritten(strata, disabled, i)
  {
    MuggleKeys(strata, disabled, i, ad, m, k);
  }

  /** Everything that follows in a stratum is in the tables. */
  lemma StageFollows(w: World, prog: Prog, strata: seq<Prog>, once: OnceFn<Symbol>, i: nat, mean: Tables<Symbol>)
    requires i < |strata| && Places(prog, strata) && IsMeaning(w, strata, once, mean)
    ensures Least(w, strata[i], StageBase(strata, once, i, mean)) <= Facts(mean)
  {
    hide Least, Yields, Places;
    var b := StageBase(strata, once, i, mean);
    var l := Least(w, strata[i], b);
    LeastIsModel(w, strata[i], b);
    forall k | k in strata[i]
      ensures k in mean
    {
      assert InStratum(strata, k, i);
      assert InSomeStratum(strata, k);
    }
    var x := iset f | f in l && f in Facts(mean);
    forall f | Derives(w, strata[i], x, b, f)
      ensures f in x
    {
      DerivesMonotone(w, strata[i], x, l, b, f);
    }
    assert IsModel(w, strata[i], b, x);
    LeastInModel(w, strata[i], b, x);
  }

  /** What a stratum starts from, as tables. */
  ghost function StartTables(strata: seq<Prog>, once: OnceFn<Symbol>, i: nat, mean: Tables<Symbol>): Tables<Symbol>
    requires i < |strata|
  {
    map k | k in mean && (Before(strata, i, k) || (k in strata[i] && IsOnce(strata[i][k]))) ::
      if k in strata[i] then once(k, Inputs(strata[i][k], mean)) else mean[k]
  }

  lemma StartTablesAre(w: World, prog: Prog, strata: seq<Prog>, once: OnceFn<Symbol>, i: nat, mean: Tables<Symbol>)
    requires i < |strata| && Places(prog, strata) && IsMeaning(w, strata, once, mean)
    ensures StageBase(strata, once, i, mean) == Facts(StartTables(strata, once, i, mean))
  {
    hide Least, IsOnce, Inputs, StageBase, Before;
    forall f: Fact<Symbol>
      ensures f in StageBase(strata, once, i, mean) <==> f in Facts(StartTables(strata, once, i, mean))
    {
      assert f == Fact(f.name, f.tuple);
      StageBaseAt(prog, strata, once, i, mean, f.name, f.tuple);
      if f.name in strata[i] {
        assert InStratum(strata, f.name, i);
        assert InSomeStratum(strata, f.name);
        if Before(strata, i, f.name) {
          BeforeElsewhere(prog, strata, i, f.name);
        }
      }
    }
  }

  /** Only finitely many facts follow in the rewritten stratum. */
  lemma StageBound(src: Source, prog: Prog, strata: seq<Prog>, lifetimes: map<MagicSymbol, nat>, disabled: bool, i: nat, ad: MagicProg, m: MagicProg,
                   once: OnceFn<Symbol>, mean: Tables<Symbol>, tabs: Tables<MagicSymbol>) returns (bound: set<Fact<MagicSymbol>>)
    requires i < |strata| && Stage(prog, strata, lifetimes, disabled, i, ad, m) && StartsRight(strata, lifetimes, disabled, i, m, mean, tabs)
    requires IsMeaning(WorldOf(src), strata, once, mean)
    ensures Finite(Least(WorldOf(src), m, Base(m, MagicOnce(prog, once), tabs)), bound)
  {
    hide Stage, StartsRight, Present, Base, MagicOnce, StageBase, Least, ReadsWithin, MuggleBase, IsMeaning, Places, Rewrites, StartTables, Rewritten;
    var names := StageNames(strata, lifetimes, disabled, i, m);
    var a, b := Base(m, MagicOnce(prog, once), tabs), MuggleBase(StageBase(strata, once, i, mean));
    StageReadsWithin(prog, strata, lifetimes, disabled, i, ad, m);
    forall f: Fact<MagicSymbol>
      ensures f in a ==> f in b
      ensures f.name in names && f in b ==> f in a
    {
      BasesAgreeAt(prog, strata, lifetimes, disabled, i, ad, m, once, mean, tabs, f.name, f.tuple);
    }
    LeastShrinks(WorldOf(src), m, a, b, names);
    StageRewrites(prog, strata, lifetimes, disabled, i, ad, m, once, mean);
    assert Places(prog, strata) by { StagePlaces(prog, strata, lifetimes, disabled, i, ad, m); }
    StageFollows(WorldOf(src), prog, strata, once, i, mean);
    StartTablesAre(WorldOf(src), prog, strata, once, i, mean);
    bound := RewriteStaysFinite(src, strata[i], Rewritten(strata, disabled, i), StageBase(strata, once, i, mean), ad, m, mean,
                                StartTables(strata, once, i, mean));
  }

  /** The strata in the order they are evaluated. */
  method Reversed(strata: seq<MagicProg>) returns (r: seq<MagicProg>)
    ensures |r| == |strata| && forall s :: 0 <= s < |strata| ==> r[s] == strata[|strata| - 1 - s]
  {
    r := [];
    for s := 0 to |strata|
      invariant |r| == s && forall s' :: 0 <= s' < s ==> r[s'] == strata[|strata| - 1 - s']
    {
      r := r + [strata[|strata| - 1 - s]];
    }
  }

  /** Evaluates one stage from the stores it starts with. */
  method EvaluateStage(src: Source, prog: Prog, once: OnceFn<Symbol>, m: MagicProg, stores: Stores<MagicSymbol>,
                       ghost strata: seq<Prog>, ghost lifetimes: map<MagicSymbol, nat>, ghost disabled: bool, ghost i: nat, ghost ad: MagicProg,
                       ghost mean: Tables<Symbol>)
    requires i < |strata| && Stage(prog, strata, lifetimes, disabled, i, ad, m) && IsMeaning(WorldOf(src), strata, once, mean)
    requires Separate(stores) && AllValid(stores) && forall n :: n in stores ==> stores[n].Delta() == {}
    requires StartsRight(strata, lifetimes, disabled, i, m, mean, Totals(stores))
    modifies set n | n in m && n in stores :: stores[n]
    ensures AllValid(stores) && forall n :: n in stores ==> stores[n].Delta() == {}
    ensures Facts(Totals(stores)) == Least(WorldOf(src), m, Base(m, MagicOnce(prog, once), old(Totals(stores))))
    ensures SameOutside(m, old(Totals(stores)), Totals(stores))
  {
    hide Stage, IsMeaning, StageBase, Base, MagicOnce, Least, StartsRight, Facts, Rewritten;
    ghost var tabs := Totals(stores);
    StartPresent(strata, lifetimes, disabled, i, m, mean, tabs);
    StageEvaluable(prog, strata, lifetimes, disabled, i, ad, m, stores.Keys);
    ghost var bound := StageBound(src, prog, strata, lifetimes, disabled, i, ad, m, once, mean, tabs);
    SemiNaiveEvaluate(src, m, MagicOnce(prog, once), stores, bound);
  }

  /** Evaluates the strata in turn; each relation that is read from elsewhere ends up with its meaning, and so does the query. */
  method StratifiedMagicEvaluate(src: Source, prog: Prog, once: OnceFn<Symbol>, compiled: seq<MagicProg>, lifetimes: map<MagicSymbol, nat>,
                                 ghost strata: seq<Prog>, ghost disabled: bool, ghost ads: seq<MagicProg>, ghost outs: seq<MagicProg>,
                                 ghost mean: Tables<Symbol>)
    returns (res: Result<set<Tuple>>)
    requires |compiled| == |strata| == |ads| == |outs|
    requires forall s :: 0 <= s < |strata| ==> compiled[s] == outs[|strata| - 1 - s]
    requires forall i: nat :: i < |strata| ==> Stage(prog, strata, lifetimes, disabled, i, ads[i], outs[i])
    requires IsMeaning(WorldOf(src), strata, once, mean)
    requires if strata == [] then PROG_ENTRY !in prog else PROG_ENTRY in strata[0]
    ensures res.Success? <==> PROG_ENTRY in prog
    ensures res.Success? ==> PROG_ENTRY in mean && res.value == mean[PROG_ENTRY]
  {
    hide Stage, IsMeaning, StageBase, Base, MagicOnce, Least, Holding, StartsRight, Facts, Rewritten;
    var stores: Stores<MagicSymbol> := map[];
    StartHolding(strata, lifetimes, disabled, mean);
    assert Totals(stores) == map[];
    for step := 0 to |compiled|
      invariant Separate(stores) && AllValid(stores)
      invariant forall n :: n in stores ==> fresh(stores[n]) && stores[n].Delta() == {}
      invariant Holding(strata, lifetimes, disabled, mean, step, Totals(stores))
      invariant step == 0 ==> stores == map[]
    {
      var m := compiled[step];
      ghost var i := |strata| - 1 - step;
      assert Stage(prog, strata, lifetimes, disabled, i, ads[i], m);
      ghost var before := Totals(stores);
      if step > 0 {
        stores := Retain(stores, lifetimes, step);
      }
      ghost var kept := Totals(stores);
      stores := AddStores(m.Keys, stores);
      ghost var tabs := Totals(stores);
      StartsNext(prog, strata, lifetimes, disabled, step, ads[i], m, mean, before, kept, tabs);
      EvaluateStage(src, prog, once, m, stores, strata, lifetimes, disabled, i, ads[i], mean);
      HoldsNext(WorldOf(src), prog, strata, lifetimes, disabled, step, ads[i], m, once, mean, before, tabs, Totals(stores));
    }
    if Muggle(PROG_ENTRY) in stores {
      res := Success(stores[Muggle(PROG_ENTRY)].total);
    } else {
      res := Failure;
    }
    EntryHeld(prog, strata, lifetimes, disabled, ads, outs, mean, Totals(stores));
  }

  lemma StartPresent(strata: seq<Prog>, lifetimes: map<MagicSymbol, nat>, disabled: bool, i: nat, m: MagicProg, mean: Tables<Symbol>, tabs: Tables<MagicSymbol>)
    requires i < |strata| && StartsRight(strata, lifetimes, disabled, i, m, mean, tabs)
    ensures FreshStart(m, tabs) && forall s :: Present(strata, lifetimes, disabled, i, m, s) ==> s in tabs
  {
  }

  lemma EntryHeld(prog: Prog, strata: seq<Prog>, lifetimes: map<MagicSymbol, nat>, disabled: bool, ads: seq<MagicProg>, outs: seq<MagicProg>,
                  mean: Tables<Symbol>, tabs: Tables<MagicSymbol>)
    requires |outs| == |strata| == |ads|
    requires forall i: nat :: i < |strata| ==> Stage(prog, strata, lifetimes, disabled, i, ads[i], outs[i])
    requires Holding(strata, lifetimes, disabled, mean, |strata|, tabs)
    requires if strata == [] then PROG_ENTRY !in prog else PROG_ENTRY in strata[0]
    ensures Muggle(PROG_ENTRY) in tabs <==> PROG_ENTRY in prog
    ensures Muggle(PROG_ENTRY) in tabs ==> PROG_ENTRY in mean && tabs[Muggle(PROG_ENTRY)] == mean[PROG_ENTRY]
  {
    hide Stage;
    if strata != [] {
      EntryPlain(prog, strata, lifetimes, disabled, ads[0], outs[0]);
      assert InStratum(strata, PROG_ENTRY, 0);
    }
  }

  lemma EntryPlain(prog: Prog, strata: seq<Prog>, lifetimes: map<MagicSymbol, nat>, disabled: bool, ad: MagicProg, m: MagicProg)
    requires strata != [] && Stage(prog, strata, lifetimes, disabled, 0, ad, m) && PROG_ENTRY in strata[0]
    ensures PROG_ENTRY in prog && PROG_ENTRY !in Rewritten(strata, disabled, 0)
  {
    StageRules(prog, strata, 0, PROG_ENTRY);
  }
}
