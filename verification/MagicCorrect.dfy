/** The magic-sets rewrite preserves what a stratum means. */
module MagicCorrect {
  import opened Values
  import opened Exprs
  import opened Program
  import opened Datalog
  import opened MagicSets

  // ----- forgetting the adornments -----

  ghost function PlainAtom(a: Atom<MagicSymbol>): Atom<Symbol> {
    match a
    case Rule(n, args) => Rule(n.inner, args)
    case NegatedRule(n, args) => NegatedRule(n.inner, args)
    case Relation(r, args, at) => Relation(r, args, at)
    case NegatedRelation(r, args, at) => NegatedRelation(r, args, at)
    case Predicate(e) => Predicate(e)
    case Unification(b, e, m) => Unification(b, e, m)
    case Search(spec, q, bs) => Search(spec, q, bs)
  }

  /** The completed relations under their plain names. */
  ghost function MuggleBase(base: DB<Symbol>): DB<MagicSymbol> {
    iset f: Fact<MagicSymbol> | f.name.Muggle? && Fact(f.name.inner, f.tuple) in base
  }

  /** What the rewrite needs of a rule: variables bound before use, head variables bound by the body,
      and no repeated argument in the application of a rewritten rule. Normalisation and reordering see to it. */
  ghost predicate RuleReady(r: InlineRule<Symbol>, rw: set<Symbol>) {
    && WellOrdered(r.body)
    && (forall i :: 0 <= i < |r.head| ==> r.head[i] in BodyBinds(r.body))
    && (forall i, k, l :: 0 <= i < |r.body| && r.body[i].Rule? && r.body[i].name in rw && 0 <= k < l < |r.body[i].args| ==>
          r.body[i].args[k] != r.body[i].args[l])
  }

  ghost predicate Ready(p: Rules<Symbol>, rw: set<Symbol>, base: DB<Symbol>) {
    && (forall n, i :: n in p && p[n].Rules? && 0 <= i < |p[n].rules| ==> RuleReady(p[n].rules[i], rw))
    && (forall f :: f in base ==> f.name !in rw)
  }

  // ----- the variables seen along a body -----

  ghost function SeenSet(h: MagicSymbol, idx: nat, r: InlineRule<MagicSymbol>, k: nat): set<Symbol>
    requires k <= |r.body|
  {
    SetOf(RewriteBody(h, idx, r, k).seen)
  }

  ghost function SetOf(ss: seq<Symbol>): set<Symbol> {
    set s | s in ss
  }

  lemma StartBinds(h: MagicSymbol, idx: nat, r: InlineRule<MagicSymbol>)
    ensures SetOf(Start(h, idx, r).seen) == HeadBound(r.head, h.MagicAdornment()) == BodyBinds(Start(h, idx, r).atoms)
  {
    if h.HasBoundAdornment() {
      BodyBindsOne(Start(h, idx, r).atoms[0]);
    } else {
      SelectNone(r.head, h.MagicAdornment());
    }
  }

  lemma StepBinds(h: MagicSymbol, idx: nat, st: Rewrite, a: Atom<MagicSymbol>)
    requires BodyBinds(st.atoms) == SetOf(st.seen)
    ensures SetOf(Step(h, idx, st, a).seen) == SetOf(st.seen) + Binds(a) == BodyBinds(Step(h, idx, st, a).atoms)
  {
    var st' := Step(h, idx, st, a);
    assert SetOf(st'.seen) == SetOf(st.seen) + SetOf(BindList(a));
    if a.Rule? && a.name.HasBoundAdornment() {
      var app := Rule(SupName(h, idx, st.sups), st.seen);
      BodyBindsOne(app);
      BodyBindsAppend([app], a);
      assert st'.atoms == [app] + [a];
    } else {
      BodyBindsAppend(st.atoms, a);
    }
  }

  /** Both the recorded variables and the ones the pending atoms bind are the bound head
      variables and those of the atoms passed. */
  lemma {:induction false} SeenIs(h: MagicSymbol, idx: nat, r: InlineRule<MagicSymbol>, k: nat)
    requires k <= |r.body|
    ensures SeenSet(h, idx, r, k) == HeadBound(r.head, h.MagicAdornment()) + BodyBinds(r.body[..k])
    ensures BodyBinds(RewriteBody(h, idx, r, k).atoms) == SeenSet(h, idx, r, k)
  {
    hide BodyBinds, Step, Start, HeadBound;
    if k == 0 {
      StartBinds(h, idx, r);
      BodyBindsNone(r.body[..0]);
    } else {
      SeenIs(h, idx, r, k - 1);
      BodyBindsStep(r.body, k - 1);
      StepBinds(h, idx, RewriteBody(h, idx, r, k - 1), r.body[k - 1]);
    }
  }

  lemma {:induction false} SelectNone<T>(xs: seq<T>, adornment: seq<bool>)
    requires true !in adornment
    ensures Select(xs, adornment) == []
    decreases |xs|
  {
    if xs != [] && adornment != [] {
      assert adornment[0] in adornment;
      assert forall b :: b in adornment[1..] ==> b in adornment;
      SelectNone(xs[1..], adornment[1..]);
    }
  }

  lemma {:induction false} SelectRow(args: seq<Symbol>, adornment: seq<bool>, env: Env)
    requires Bound(args, env)
    ensures Bound(Select(args, adornment), env)
    ensures Select(Row(args, env), adornment) == Row(Select(args, adornment), env)
    decreases |args|
  {
    if args != [] && adornment != [] {
      SelectRow(args[1..], adornment[1..], env);
      assert Row(args, env)[1..] == Row(args[1..], env);
      var rest := Select(args[1..], adornment[1..]);
      assert Row([args[0]] + rest, env) == [env[args[0]]] + Row(rest, env);
    }
  }

  // ----- adorned rules -----

  /** What an adorned rule inherits from a ready rule. */
  ghost predicate AdornedReady(r: InlineRule<MagicSymbol>) {
    && WellOrdered(r.body)
    && (forall i :: 0 <= i < |r.head| ==> r.head[i] in BodyBinds(r.body))
    && (forall i :: 0 <= i < |r.body| && r.body[i].Rule? ==> r.body[i].name.Muggle? || r.body[i].name.Magic?)
    && (forall i :: 0 <= i < |r.body| && r.body[i].NegatedRule? ==> r.body[i].name.Muggle?)
  }

  lemma SameBinds(body: seq<Atom<Symbol>>, body': seq<Atom<MagicSymbol>>)
    requires |body| == |body'|
    requires forall i :: 0 <= i < |body| ==> Binds(body[i]) == Binds(body'[i])
    ensures BodyBinds(body) == BodyBinds(body')
  {
  }

  lemma AdornAtomShape(a: Atom<Symbol>, seen: set<Symbol>, rw: set<Symbol>)
    ensures var b := AdornAtom(a, seen, rw);
            && Binds(b) == Binds(a) && Uses(b) == Uses(a) && Negates(b) == Negates(a)
            && (b.Rule? ==> b.name.Muggle? || b.name.Magic?)
            && (b.NegatedRule? ==> b.name.Muggle?)
            && PlainAtom(b) == a
  {
  }

  lemma AdornKeepsOrder(r: InlineRule<Symbol>, seen: set<Symbol>, rw: set<Symbol>)
    requires RuleReady(r, rw)
    ensures AdornedReady(AdornRule(r, seen, rw))
  {
    hide AdornAtom, Binds, Uses, Negates, BodyBinds, PlainAtom;
    var body' := AdornBody(r.body, seen, rw);
    forall i | 0 <= i < |body'|
      ensures Binds(body'[i]) == Binds(r.body[i]) && Uses(body'[i]) == Uses(r.body[i]) && Negates(body'[i]) == Negates(r.body[i])
      ensures body'[i].Rule? ==> body'[i].name.Muggle? || body'[i].name.Magic?
      ensures body'[i].NegatedRule? ==> body'[i].name.Muggle?
    {
      AdornAtomShape(r.body[i], SeenBefore(r.body, seen, rw, i), rw);
    }
    SameBinds(r.body, body');
    forall i | 0 <= i < |body'|
      ensures Uses(body'[i]) <= BodyBinds(body'[..i])
      ensures Negates(body'[i]) * BodyBinds(body') <= BodyBinds(body'[..i])
    {
      SameBinds(r.body[..i], body'[..i]);
    }
  }

  lemma AdornIsPlain(r: InlineRule<Symbol>, seen: set<Symbol>, rw: set<Symbol>, i: nat)
    requires i < |r.body|
    ensures PlainAtom(AdornRule(r, seen, rw).body[i]) == r.body[i]
  {
  }

  lemma StepAtoms(h: MagicSymbol, idx: nat, st: Rewrite, a: Atom<MagicSymbol>, x: Atom<MagicSymbol>)
    requires x in Step(h, idx, st, a).atoms
    ensures x == a || x in st.atoms || AtomVars(x) == SetOf(st.seen)
  {
  }

  lemma StartAtoms(h: MagicSymbol, idx: nat, r: InlineRule<MagicSymbol>, x: Atom<MagicSymbol>)
    requires x in Start(h, idx, r).atoms
    ensures AtomVars(x) == SetOf(Start(h, idx, r).seen)
  {
  }

  /** Of the body's variables, a pending atom mentions only those seen. */
  lemma {:induction false} PendingVars(h: MagicSymbol, idx: nat, r: InlineRule<MagicSymbol>, k: nat, a: Atom<MagicSymbol>)
    requires k <= |r.body| && AdornedReady(r) && a in RewriteBody(h, idx, r, k).atoms
    ensures AtomVars(a) * BodyBinds(r.body) <= SeenSet(h, idx, r, k)
  {
    hide Step, Start, BodyBinds, HeadBound, Binds, Uses, Negates;
    SeenIs(h, idx, r, k);
    if k == 0 {
      StartAtoms(h, idx, r, a);
    } else {
      SeenIs(h, idx, r, k - 1);
      BodyBindsStep(r.body, k - 1);
      var st := RewriteBody(h, idx, r, k - 1);
      StepAtoms(h, idx, st, r.body[k - 1], a);
      if a in st.atoms {
        PendingVars(h, idx, r, k - 1, a);
      } else if a == r.body[k - 1] {
        assert Uses(a) <= BodyBinds(r.body[..k - 1]);
      }
    }
  }

  // ----- supplementary relations -----

  ghost predicate IsBoundCall(a: Atom<MagicSymbol>) {
    a.Rule? && a.name.HasBoundAdornment()
  }

  /** The supplementary relation number `si` of a rule stands for its first `k` atoms. */
  ghost predicate IsSupPos(h: MagicSymbol, idx: nat, r: InlineRule<MagicSymbol>, k: nat, si: nat) {
    || (h.HasBoundAdornment() && si == 0 && k == 0)
    || (k < |r.body| && IsBoundCall(r.body[k]) && RewriteBody(h, idx, r, k).sups == si)
  }

  ghost function SupArgs(h: MagicSymbol, idx: nat, r: InlineRule<MagicSymbol>, k: nat, si: nat): seq<Symbol>
    requires k <= |r.body|
  {
    if h.HasBoundAdornment() && si == 0 then Select(r.head, h.MagicAdornment()) else RewriteBody(h, idx, r, k).seen
  }

  lemma StepSups(h: MagicSymbol, idx: nat, st: Rewrite, a: Atom<MagicSymbol>)
    ensures Step(h, idx, st, a).sups == st.sups + if IsBoundCall(a) then 1 else 0
  {
  }

  lemma {:induction false} SupsGrow(h: MagicSymbol, idx: nat, r: InlineRule<MagicSymbol>, j: nat, k: nat)
    requires j <= k <= |r.body|
    ensures RewriteBody(h, idx, r, j).sups <= RewriteBody(h, idx, r, k).sups
    ensures j < k && IsBoundCall(r.body[j]) ==> RewriteBody(h, idx, r, j).sups < RewriteBody(h, idx, r, k).sups
    decreases k
  {
    hide Step, IsBoundCall;
    if j < k {
      SupsGrow(h, idx, r, j, k - 1);
      StepSups(h, idx, RewriteBody(h, idx, r, k - 1), r.body[k - 1]);
    }
  }

  lemma SupPosUnique(h: MagicSymbol, idx: nat, r: InlineRule<MagicSymbol>, j: nat, k: nat, si: nat)
    requires j <= |r.body| && k <= |r.body|
    requires IsSupPos(h, idx, r, j, si) && IsSupPos(h, idx, r, k, si)
    ensures j == k
  {
    SupsGrow(h, idx, r, 0, j);
    SupsGrow(h, idx, r, 0, k);
    if j < k {
      SupsGrow(h, idx, r, j, k);
    } else if k < j {
      SupsGrow(h, idx, r, k, j);
    }
  }

  // ----- soundness: the rewritten program derives nothing new -----

  /** Names the adorned rules that supplementary relations belong to. */
  ghost function Owner(adorned: Rules<MagicSymbol>, n: Symbol, ad: seq<bool>): MagicSymbol {
    if Muggle(n) in adorned then Muggle(n) else Magic(n, ad)
  }

  /** The first `k` atoms hold, by the original meaning, under `env`. */
  ghost predicate PrefixHolds(w: World, l: DB<Symbol>, base: DB<Symbol>, r: InlineRule<MagicSymbol>, k: nat, env: Env)
    requires k <= |r.body|
  {
    forall i :: 0 <= i < k ==> Holds(w, l, base, PlainAtom(r.body[i]), env)
  }

  ghost predicate SupFact(w: World, l: DB<Symbol>, base: DB<Symbol>, adorned: Rules<MagicSymbol>,
                          name: MagicSymbol, t: Tuple, k: nat, env: Env) {
    && name.Sup?
    && var h := Owner(adorned, name.inner, name.adornment);
    && h in adorned && adorned[h].Rules? && name.ruleIdx < |adorned[h].rules|
    && var r := adorned[h].rules[name.ruleIdx];
    && k <= |r.body| && IsSupPos(h, name.ruleIdx, r, k, name.supIdx)
    && env.Keys == SeenSet(h, name.ruleIdx, r, k)
    && var args := SupArgs(h, name.ruleIdx, r, k, name.supIdx);
    && Bound(args, env) && t == Row(args, env)
    && PrefixHolds(w, l, base, r, k, env)
  }

  /** Adorned facts are original facts, and supplementary facts satisfy the atoms they stand for. */
  ghost predicate SoundFact(w: World, l: DB<Symbol>, base: DB<Symbol>, adorned: Rules<MagicSymbol>, f: Fact<MagicSymbol>) {
    match f.name
    case Muggle(n) => Fact(n, f.tuple) in l
    case Magic(n, _) => Fact(n, f.tuple) in l
    case Input(_, _) => true
    case Sup(_, _, _, _) => exists k, env :: SupFact(w, l, base, adorned, f.name, f.tuple, k, env)
  }

  ghost function SoundFacts(w: World, l: DB<Symbol>, base: DB<Symbol>, adorned: Rules<MagicSymbol>): DB<MagicSymbol> {
    iset f: Fact<MagicSymbol> | SoundFact(w, l, base, adorned, f)
  }

  lemma SoundAtom(w: World, l: DB<Symbol>, base: DB<Symbol>, adorned: Rules<MagicSymbol>, a: Atom<MagicSymbol>, env: Env)
    requires a.Rule? ==> a.name.Muggle? || a.name.Magic?
    requires a.NegatedRule? ==> a.name.Muggle?
    requires Holds(w, SoundFacts(w, l, base, adorned), MuggleBase(base), a, env)
    ensures Holds(w, l, base, PlainAtom(a), env)
  {
    if a.NegatedRule? {
      assert forall t :: Fact(a.name.inner, t) in base <==> Fact(a.name, t) in MuggleBase(base);
    }
  }

  ghost predicate OwnRule(adorned: Rules<MagicSymbol>, h: MagicSymbol, idx: nat, r: InlineRule<MagicSymbol>) {
    && h in adorned && adorned[h].Rules? && idx < |adorned[h].rules| && adorned[h].rules[idx] == r
    && Owner(adorned, h.inner, h.MagicAdornment()) == h
    && AdornedReady(r)
  }

  lemma PlainAtomVars(a: Atom<MagicSymbol>)
    ensures AtomVars(PlainAtom(a)) == AtomVars(a)
  {
  }

  lemma HeadInBody(h: MagicSymbol, r: InlineRule<MagicSymbol>)
    requires AdornedReady(r)
    ensures HeadBound(r.head, h.MagicAdornment()) <= BodyBinds(r.body)
  {
    SelectIn(r.head, h.MagicAdornment());
  }

  lemma {:induction false} SelectIn<T>(xs: seq<T>, adornment: seq<bool>)
    ensures forall x :: x in Select(xs, adornment) ==> x in xs
    decreases |xs|
  {
    if xs != [] && adornment != [] {
      SelectIn(xs[1..], adornment[1..]);
      assert forall x :: x in xs[1..] ==> x in xs;
    }
  }

  /** The variables of an atom that the body binds at all are bound once the atom is passed. */
  lemma PassedVars(h: MagicSymbol, idx: nat, r: InlineRule<MagicSymbol>, i: nat, k: nat)
    requires AdornedReady(r) && i < k <= |r.body|
    ensures AtomVars(r.body[i]) * BodyBinds(r.body) <= SeenSet(h, idx, r, k)
  {
    hide Binds, Uses, Negates, HeadBound, RewriteBody;
    SeenIs(h, idx, r, k);
    assert r.body[..k][i] == r.body[i];
    assert Binds(r.body[i]) <= BodyBinds(r.body[..k]);
    assert Uses(r.body[i]) <= BodyBinds(r.body[..i]);
    assert BodyBinds(r.body[..i]) <= BodyBinds(r.body[..k]) by {
      assert r.body[..i] == r.body[..k][..i];
      BodyBindsPrefix(r.body[..k], i);
    }
  }

  lemma SeenInBody(h: MagicSymbol, idx: nat, r: InlineRule<MagicSymbol>, k: nat)
    requires AdornedReady(r) && k <= |r.body|
    ensures SeenSet(h, idx, r, k) <= BodyBinds(r.body)
  {
    hide BodyBinds, HeadBound, RewriteBody;
    SeenIs(h, idx, r, k);
    HeadInBody(h, r);
    BodyBindsPrefix(r.body, k);
  }

  lemma SeenGrows(h: MagicSymbol, idx: nat, r: InlineRule<MagicSymbol>, k: nat)
    requires k < |r.body|
    ensures SeenSet(h, idx, r, k + 1) == SeenSet(h, idx, r, k) + Binds(r.body[k])
  {
    hide BodyBinds, HeadBound, RewriteBody;
    SeenIs(h, idx, r, k);
    SeenIs(h, idx, r, k + 1);
    BodyBindsStep(r.body, k);
  }

  lemma PrefixRestrict(w: World, l: DB<Symbol>, base: DB<Symbol>, h: MagicSymbol, idx: nat, r: InlineRule<MagicSymbol>, k: nat, env: Env)
    requires AdornedReady(r) && k <= |r.body| && env.Keys <= BodyBinds(r.body)
    ensures PrefixHolds(w, l, base, r, k, env) <==> PrefixHolds(w, l, base, r, k, Restrict(env, SeenSet(h, idx, r, k)))
  {
    hide Holds, PlainAtom, Binds, Uses, Negates, BodyBinds, SeenSet, AdornedReady, AtomVars;
    var keys := SeenSet(h, idx, r, k);
    forall i | 0 <= i < k
      ensures Holds(w, l, base, PlainAtom(r.body[i]), env) <==> Holds(w, l, base, PlainAtom(r.body[i]), Restrict(env, keys))
    {
      PassedVars(h, idx, r, i, k);
      PlainAtomVars(r.body[i]);
      HoldsRestrict(w, l, base, PlainAtom(r.body[i]), env, keys, BodyBinds(r.body));
    }
  }

  /** A supplementary fact that agrees with `env` vouches for the atoms passed. */
  lemma SupVouches(w: World, l: DB<Symbol>, base: DB<Symbol>, adorned: Rules<MagicSymbol>,
                   h: MagicSymbol, idx: nat, r: InlineRule<MagicSymbol>, k: nat, si: nat, args: seq<Symbol>, env: Env)
    requires OwnRule(adorned, h, idx, r) && k <= |r.body| && IsSupPos(h, idx, r, k, si)
    requires args == SupArgs(h, idx, r, k, si) && SetOf(args) == SeenSet(h, idx, r, k)
    requires env.Keys <= BodyBinds(r.body)
    requires Bound(args, env) && Fact(SupName(h, idx, si), Row(args, env)) in SoundFacts(w, l, base, adorned)
    ensures PrefixHolds(w, l, base, r, k, env)
  {
    var name, t := SupName(h, idx, si), Row(args, env);
    assert SoundFact(w, l, base, adorned, Fact(name, t));
    var k', env' :| SupFact(w, l, base, adorned, name, t, k', env');
    SupPosUnique(h, idx, r, k, k', si);
    var keys := SeenSet(h, idx, r, k);
    RowDetermines(args, env', env);
    assert env' == Restrict(env, keys);
    PrefixRestrict(w, l, base, h, idx, r, k, env);
  }

  lemma RowDetermines(args: seq<Symbol>, env: Env, env': Env)
    requires Bound(args, env) && Bound(args, env') && Row(args, env) == Row(args, env')
    ensures forall s :: s in SetOf(args) ==> s in env && s in env' && env[s] == env'[s]
  {
    forall s | s in SetOf(args)
      ensures s in env && s in env' && env[s] == env'[s]
    {
      var i :| 0 <= i < |args| && args[i] == s;
      assert Row(args, env)[i] == Row(args, env')[i];
    }
  }

  /** The pending atoms hold under an assignment exactly when they hold under its seen part. */
  lemma PendingRestrict(w: World, pos: DB<MagicSymbol>, neg: DB<MagicSymbol>, h: MagicSymbol, idx: nat,
                        r: InlineRule<MagicSymbol>, k: nat, env: Env)
    requires AdornedReady(r) && k <= |r.body| && env.Keys <= BodyBinds(r.body)
    ensures AllHold(w, pos, neg, RewriteBody(h, idx, r, k).atoms, env) <==>
            AllHold(w, pos, neg, RewriteBody(h, idx, r, k).atoms, Restrict(env, SeenSet(h, idx, r, k)))
  {
    hide Holds, SeenSet, RewriteBody, AdornedReady, BodyBinds, AtomVars;
    var keys := SeenSet(h, idx, r, k);
    forall a | a in RewriteBody(h, idx, r, k).atoms
      ensures Holds(w, pos, neg, a, env) <==> Holds(w, pos, neg, a, Restrict(env, keys))
    {
      PendingVars(h, idx, r, k, a);
      HoldsRestrict(w, pos, neg, a, env, keys, BodyBinds(r.body));
    }
  }

  lemma StepPlain(h: MagicSymbol, idx: nat, st: Rewrite, a: Atom<MagicSymbol>)
    requires !IsBoundCall(a)
    ensures Step(h, idx, st, a).atoms == st.atoms + [a]
  {
  }

  lemma StepSup(h: MagicSymbol, idx: nat, st: Rewrite, a: Atom<MagicSymbol>)
    requires IsBoundCall(a)
    ensures Step(h, idx, st, a).atoms == [Rule(SupName(h, idx, st.sups), st.seen), a]
  {
  }

  /** Before a bound call, the supplementary relation lists all the variables seen. */
  lemma SupBeforeCall(h: MagicSymbol, idx: nat, r: InlineRule<MagicSymbol>, k: nat)
    requires k < |r.body| && IsBoundCall(r.body[k])
    ensures var si := RewriteBody(h, idx, r, k).sups;
            IsSupPos(h, idx, r, k, si) && SupArgs(h, idx, r, k, si) == RewriteBody(h, idx, r, k).seen
  {
    SupsGrow(h, idx, r, 0, k);
  }

  /** If the pending atoms hold in the sound facts, all the atoms passed hold by the original meaning. */
  lemma {:induction false} SoundPrefix(w: World, l: DB<Symbol>, base: DB<Symbol>, adorned: Rules<MagicSymbol>,
                                       h: MagicSymbol, idx: nat, r: InlineRule<MagicSymbol>, k: nat, env: Env)
    requires OwnRule(adorned, h, idx, r) && k <= |r.body| && env.Keys == SeenSet(h, idx, r, k)
    requires AllHold(w, SoundFacts(w, l, base, adorned), MuggleBase(base), RewriteBody(h, idx, r, k).atoms, env)
    ensures PrefixHolds(w, l, base, r, k, env)
    decreases k
  {
    hide Holds, Step, BodyBinds, SoundFacts, MuggleBase, PlainAtom, IsBoundCall, SeenSet, Binds;
    if k > 0 {
      var a, st := r.body[k - 1], RewriteBody(h, idx, r, k - 1);
      var pos, neg := SoundFacts(w, l, base, adorned), MuggleBase(base);
      SeenInBody(h, idx, r, k);
      SeenGrows(h, idx, r, k - 1);
      assert Holds(w, pos, neg, a, env) by {
        if IsBoundCall(a) { StepSup(h, idx, st, a); } else { StepPlain(h, idx, st, a); }
      }
      SoundAtom(w, l, base, adorned, a, env);
      if IsBoundCall(a) {
        StepSup(h, idx, st, a);
        SoundSup(w, l, base, adorned, h, idx, r, k - 1, env);
      } else {
        StepPlain(h, idx, st, a);
        var env' := Restrict(env, SeenSet(h, idx, r, k - 1));
        PendingRestrict(w, pos, neg, h, idx, r, k - 1, env);
        SoundPrefix(w, l, base, adorned, h, idx, r, k - 1, env');
        PrefixRestrict(w, l, base, h, idx, r, k - 1, env);
      }
    }
  }

  lemma SoundSup(w: World, l: DB<Symbol>, base: DB<Symbol>, adorned: Rules<MagicSymbol>,
                 h: MagicSymbol, idx: nat, r: InlineRule<MagicSymbol>, k: nat, env: Env)
    requires OwnRule(adorned, h, idx, r) && k < |r.body| && IsBoundCall(r.body[k]) && env.Keys <= BodyBinds(r.body)
    requires var st := RewriteBody(h, idx, r, k);
             Holds(w, SoundFacts(w, l, base, adorned), MuggleBase(base), Rule(SupName(h, idx, st.sups), st.seen), env)
    ensures PrefixHolds(w, l, base, r, k, env)
  {
    hide SoundFacts, MuggleBase, BodyBinds, IsBoundCall, RewriteBody;
    var st := RewriteBody(h, idx, r, k);
    SupBeforeCall(h, idx, r, k);
    SupVouches(w, l, base, adorned, h, idx, r, k, st.sups, st.seen, env);
  }

  // ----- the rules a rule turns into -----

  ghost function StartRule(h: MagicSymbol, idx: nat, r: InlineRule<MagicSymbol>): Emitted {
    var args := Select(r.head, h.MagicAdornment());
    Emitted(SupName(h, idx, 0), PlainRule(args, [Rule(InputName(h), args)]))
  }

  ghost function SupRule(h: MagicSymbol, idx: nat, r: InlineRule<MagicSymbol>, k: nat): Emitted
    requires k < |r.body|
  {
    var st := RewriteBody(h, idx, r, k);
    Emitted(SupName(h, idx, st.sups), PlainRule(st.seen, st.atoms))
  }

  ghost function InputRule(h: MagicSymbol, idx: nat, r: InlineRule<MagicSymbol>, k: nat): Emitted
    requires k < |r.body| && IsBoundCall(r.body[k])
  {
    var st, a := RewriteBody(h, idx, r, k), r.body[k];
    Emitted(InputName(a.name), PlainRule(Select(a.args, a.name.MagicAdornment()), [Rule(SupName(h, idx, st.sups), st.seen)]))
  }

  ghost function FinalRule(h: MagicSymbol, idx: nat, r: InlineRule<MagicSymbol>): Emitted {
    Emitted(h, InlineRule(r.head, r.aggr, RewriteBody(h, idx, r, |r.body|).atoms))
  }

  ghost predicate IsCallRule(h: MagicSymbol, idx: nat, r: InlineRule<MagicSymbol>, k: nat, e: Emitted) {
    k < |r.body| && IsBoundCall(r.body[k]) && (e == SupRule(h, idx, r, k) || e == InputRule(h, idx, r, k))
  }

  lemma StepOut(h: MagicSymbol, idx: nat, r: InlineRule<MagicSymbol>, k: nat)
    requires k < |r.body|
    ensures RewriteBody(h, idx, r, k + 1).out ==
            RewriteBody(h, idx, r, k).out +
            if IsBoundCall(r.body[k]) then [SupRule(h, idx, r, k), InputRule(h, idx, r, k)] else []
  {
  }

  lemma StartOut(h: MagicSymbol, idx: nat, r: InlineRule<MagicSymbol>)
    ensures RewriteBody(h, idx, r, 0).out == if h.HasBoundAdornment() then [StartRule(h, idx, r)] else []
  {
  }

  ghost predicate SomeCallRule(h: MagicSymbol, idx: nat, r: InlineRule<MagicSymbol>, k: nat, e: Emitted) {
    exists j :: 0 <= j < k && IsCallRule(h, idx, r, j, e)
  }

  lemma {:induction false} OutIs(h: MagicSymbol, idx: nat, r: InlineRule<MagicSymbol>, k: nat, e: Emitted)
    requires k <= |r.body|
    ensures e in RewriteBody(h, idx, r, k).out <==>
            (h.HasBoundAdornment() && e == StartRule(h, idx, r)) || SomeCallRule(h, idx, r, k, e)
    decreases k
  {
    hide RewriteBody, SupRule, InputRule, StartRule, IsBoundCall;
    if k == 0 {
      StartOut(h, idx, r);
    } else {
      OutIs(h, idx, r, k - 1, e);
      StepOut(h, idx, r, k - 1);
      if SomeCallRule(h, idx, r, k, e) {
        var j :| 0 <= j < k && IsCallRule(h, idx, r, j, e);
        assert j < k - 1 ==> SomeCallRule(h, idx, r, k - 1, e);
      }
      if SomeCallRule(h, idx, r, k - 1, e) {
        var j :| 0 <= j < k - 1 && IsCallRule(h, idx, r, j, e);
        assert SomeCallRule(h, idx, r, k, e);
      }
      if e in RewriteBody(h, idx, r, k).out && e !in RewriteBody(h, idx, r, k - 1).out {
        assert IsCallRule(h, idx, r, k - 1, e);
      }
    }
  }

  lemma RuleEmits(h: MagicSymbol, idx: nat, r: InlineRule<MagicSymbol>, e: Emitted)
    ensures e in RewriteRule(h, idx, r) <==>
            || (h.HasBoundAdornment() && e == StartRule(h, idx, r))
            || SomeCallRule(h, idx, r, |r.body|, e)
            || e == FinalRule(h, idx, r)
  {
    OutIs(h, idx, r, |r.body|, e);
  }

  /** What the rewrite is applied to, and what comes out. */
  ghost predicate Rewrites(p: Rules<Symbol>, rw: set<Symbol>, base: DB<Symbol>, adorned: Rules<MagicSymbol>, m: Rules<MagicSymbol>) {
    Ready(p, rw, base) && IsAdorned(p, rw, adorned) && IsRewritten(adorned, m)
  }

  lemma AdornedOwn(p: Rules<Symbol>, rw: set<Symbol>, base: DB<Symbol>, adorned: Rules<MagicSymbol>, h: MagicSymbol, idx: nat)
    requires Ready(p, rw, base) && IsAdorned(p, rw, adorned)
    requires h in adorned && adorned[h].Rules? && idx < |adorned[h].rules|
    ensures OwnRule(adorned, h, idx, adorned[h].rules[idx])
    ensures p[h.inner].Rules? && idx < |p[h.inner].rules|
    ensures adorned[h].rules[idx] ==
            AdornRule(p[h.inner].rules[idx], HeadBound(p[h.inner].rules[idx].head, h.MagicAdornment()), rw)
  {
    var orig := p[h.inner].rules[idx];
    AdornKeepsOrder(orig, HeadBound(orig.head, h.MagicAdornment()), rw);
  }

  lemma SoundStart(w: World, l: DB<Symbol>, base: DB<Symbol>, adorned: Rules<MagicSymbol>,
                   h: MagicSymbol, idx: nat, r: InlineRule<MagicSymbol>, env: Env, t: Tuple)
    requires OwnRule(adorned, h, idx, r) && h.HasBoundAdornment()
    requires Yields(w, SoundFacts(w, l, base, adorned), MuggleBase(base), StartRule(h, idx, r).rule, env, t)
    ensures Fact(SupName(h, idx, 0), t) in SoundFacts(w, l, base, adorned)
  {
    var args := Select(r.head, h.MagicAdornment());
    BodyBindsOne(StartRule(h, idx, r).rule.body[0]);
    SeenIs(h, idx, r, 0);
    BodyBindsNone(r.body[..0]);
    assert SupFact(w, l, base, adorned, SupName(h, idx, 0), t, 0, env);
  }

  lemma SoundSupRule(w: World, l: DB<Symbol>, base: DB<Symbol>, adorned: Rules<MagicSymbol>,
                     h: MagicSymbol, idx: nat, r: InlineRule<MagicSymbol>, k: nat, env: Env, t: Tuple)
    requires OwnRule(adorned, h, idx, r) && k < |r.body| && IsBoundCall(r.body[k])
    requires Yields(w, SoundFacts(w, l, base, adorned), MuggleBase(base), SupRule(h, idx, r, k).rule, env, t)
    ensures Fact(SupRule(h, idx, r, k).key, t) in SoundFacts(w, l, base, adorned)
  {
    hide Holds, MuggleBase, BodyBinds, IsBoundCall;
    var st := RewriteBody(h, idx, r, k);
    SeenIs(h, idx, r, k);
    SupBeforeCall(h, idx, r, k);
    SoundPrefix(w, l, base, adorned, h, idx, r, k, env);
    assert SupFact(w, l, base, adorned, SupName(h, idx, st.sups), t, k, env);
  }

  lemma SoundFinal(w: World, p: Rules<Symbol>, rw: set<Symbol>, base: DB<Symbol>, adorned: Rules<MagicSymbol>,
                   h: MagicSymbol, idx: nat, r: InlineRule<MagicSymbol>, env: Env, t: Tuple)
    requires Ready(p, rw, base) && IsAdorned(p, rw, adorned)
    requires h in adorned && adorned[h].Rules? && idx < |adorned[h].rules| && r == adorned[h].rules[idx]
    requires Yields(w, SoundFacts(w, Least(w, p, base), base, adorned), MuggleBase(base), FinalRule(h, idx, r).rule, env, t)
    ensures Fact(h.inner, t) in Least(w, p, base)
  {
    hide Holds, MuggleBase, BodyBinds, SoundFacts, AdornBody, Least, Ready;
    var l := Least(w, p, base);
    AdornedOwn(p, rw, base, adorned, h, idx);
    var orig := p[h.inner].rules[idx];
    SeenIs(h, idx, r, |r.body|);
    assert r.body[..|r.body|] == r.body;
    HeadInBody(h, r);
    SoundPrefix(w, l, base, adorned, h, idx, r, |r.body|, env);
    PlainYields(w, l, base, orig, HeadBound(orig.head, h.MagicAdornment()), rw, env, t);
    assert Derives(w, p, l, base, Fact(h.inner, t)) by {
      assert HasRule(p, h.inner, orig);
    }
    LeastIsModel(w, p, base);
  }

  /** An adorned rule whose atoms all hold by the original meaning yields what the original rule yields. */
  lemma PlainYields(w: World, l: DB<Symbol>, base: DB<Symbol>, orig: InlineRule<Symbol>, seen: set<Symbol>, rw: set<Symbol>, env: Env, t: Tuple)
    requires var r := AdornRule(orig, seen, rw);
             && env.Keys == BodyBinds(r.body) && PrefixHolds(w, l, base, r, |r.body|, env)
             && IsPlain(orig) && Bound(orig.head, env) && t == Row(orig.head, env)
    ensures Yields(w, l, base, orig, env, t)
  {
    hide Holds, PlainAtom, AdornAtom, Binds;
    var r := AdornRule(orig, seen, rw);
    forall i | 0 <= i < |orig.body|
      ensures Holds(w, l, base, orig.body[i], env) && Binds(orig.body[i]) == Binds(r.body[i])
    {
      AdornAtomShape(orig.body[i], SeenBefore(orig.body, seen, rw, i), rw);
      assert Holds(w, l, base, PlainAtom(r.body[i]), env);
    }
    SameBinds(orig.body, r.body);
  }

  lemma SoundModel(w: World, p: Rules<Symbol>, rw: set<Symbol>, base: DB<Symbol>, adorned: Rules<MagicSymbol>, m: Rules<MagicSymbol>)
    requires Rewrites(p, rw, base, adorned, m)
    ensures IsModel(w, m, MuggleBase(base), SoundFacts(w, Least(w, p, base), base, adorned))
  {
    hide Ready, IsAdorned, Least, Yields, RewriteRule;
    var l := Least(w, p, base);
    var sound := SoundFacts(w, l, base, adorned);
    LeastIsModel(w, p, base);
    forall f | Derives(w, m, sound, MuggleBase(base), f)
      ensures f in sound
    {
      var r', env :| HasRule(m, f.name, r') && Yields(w, sound, MuggleBase(base), r', env, f.tuple);
      var h, idx :| Emits(adorned, Emitted(f.name, r'), h, idx);
      SoundRule(w, p, rw, base, adorned, h, idx, Emitted(f.name, r'), env, f.tuple);
    }
  }

  lemma SoundRule(w: World, p: Rules<Symbol>, rw: set<Symbol>, base: DB<Symbol>, adorned: Rules<MagicSymbol>,
                  h: MagicSymbol, idx: nat, e: Emitted, env: Env, t: Tuple)
    requires Ready(p, rw, base) && IsAdorned(p, rw, adorned) && Emits(adorned, e, h, idx)
    requires Yields(w, SoundFacts(w, Least(w, p, base), base, adorned), MuggleBase(base), e.rule, env, t)
    ensures Fact(e.key, t) in SoundFacts(w, Least(w, p, base), base, adorned)
  {
    hide Ready, Least, Yields, RewriteRule, SupRule, StartRule, RewriteBody, SupFact, IsBoundCall;
    var l, r := Least(w, p, base), adorned[h].rules[idx];
    AdornedOwn(p, rw, base, adorned, h, idx);
    RuleEmits(h, idx, r, e);
    if e == FinalRule(h, idx, r) {
      SoundFinal(w, p, rw, base, adorned, h, idx, r, env, t);
    } else if SomeCallRule(h, idx, r, |r.body|, e) {
      var k :| 0 <= k < |r.body| && IsCallRule(h, idx, r, k, e);
      if e == SupRule(h, idx, r, k) {
        SoundSupRule(w, l, base, adorned, h, idx, r, k, env, t);
      }
    } else {
      SoundStart(w, l, base, adorned, h, idx, r, env, t);
      StartKey(h, idx, r);
    }
  }

  lemma StartKey(h: MagicSymbol, idx: nat, r: InlineRule<MagicSymbol>)
    ensures StartRule(h, idx, r).key == SupName(h, idx, 0)
  {
  }

  /** Everything an adorned or plain relation holds after the rewrite, it holds without it. */
  lemma MagicSound(w: World, p: Rules<Symbol>, rw: set<Symbol>, base: DB<Symbol>, adorned: Rules<MagicSymbol>, m: Rules<MagicSymbol>,
                   f: Fact<MagicSymbol>)
    requires Rewrites(p, rw, base, adorned, m)
    requires f in Least(w, m, MuggleBase(base)) && (f.name.Muggle? || f.name.Magic?)
    ensures Fact(f.name.inner, f.tuple) in Least(w, p, base)
  {
    hide Rewrites, IsModel, Derives;
    SoundModel(w, p, rw, base, adorned, m);
    LeastInModel(w, m, MuggleBase(base), SoundFacts(w, Least(w, p, base), base, adorned));
    assert SoundFact(w, Least(w, p, base), base, adorned, f);
  }

  // ----- completeness: nothing asked for is lost -----

  /** The call has been made: its bound columns are in the input relation, or it has none. */
  ghost predicate Asked(lm: DB<MagicSymbol>, n: Symbol, ad: seq<bool>, t: Tuple) {
    true in ad ==> Fact(Input(n, ad), Select(t, ad)) in lm
  }

  /** Present under its plain name, or under every adorned name it is asked for by. */
  ghost predicate Answered(rw: set<Symbol>, adorned: Rules<MagicSymbol>, lm: DB<MagicSymbol>, f: Fact<Symbol>) {
    if f.name !in rw then Fact(Muggle(f.name), f.tuple) in lm
    else forall ad :: Magic(f.name, ad) in adorned && Asked(lm, f.name, ad, f.tuple) ==> Fact(Magic(f.name, ad), f.tuple) in lm
  }

  ghost function AnsweredFacts(rw: set<Symbol>, adorned: Rules<MagicSymbol>, lm: DB<MagicSymbol>): DB<Symbol> {
    iset f: Fact<Symbol> | Answered(rw, adorned, lm, f)
  }

  /** In a set closed under the rewritten rules, a rule whose body holds fires. */
  lemma Fires(w: World, adorned: Rules<MagicSymbol>, m: Rules<MagicSymbol>, base: DB<MagicSymbol>, lm: DB<MagicSymbol>,
              h: MagicSymbol, idx: nat, e: Emitted, env: Env)
    requires IsRewritten(adorned, m) && IsModel(w, m, base, lm) && Emits(adorned, e, h, idx)
    requires IsPlain(e.rule) && BodyHolds(w, lm, base, e.rule.body, env) && Bound(e.rule.head, env)
    ensures Fact(e.key, Row(e.rule.head, env)) in lm
  {
    hide Emits, BodyHolds;
    var f := Fact(e.key, Row(e.rule.head, env));
    assert Emitted(e.key, e.rule) == e;
    assert HasRule(m, e.key, e.rule);
    assert Yields(w, lm, base, e.rule, env, f.tuple);
    assert Derives(w, m, lm, base, f);
  }

  lemma AllHoldBody<S(!new)>(w: World, pos: DB<S>, neg: DB<S>, body: seq<Atom<S>>, env: Env)
    requires AllHold(w, pos, neg, body, env) && env.Keys == BodyBinds(body)
    ensures BodyHolds(w, pos, neg, body, env)
  {
    hide Holds, BodyBinds;
  }

  lemma {:induction false} SeenBeforeIn(body: seq<Atom<Symbol>>, seen: set<Symbol>, rw: set<Symbol>, k: nat)
    requires k <= |body|
    ensures SeenBefore(body, seen, rw, k) <= seen + BodyBinds(body[..k])
    decreases k
  {
    if k > 0 {
      SeenBeforeIn(body, seen, rw, k - 1);
      BodyBindsStep(body, k - 1);
    }
  }

  lemma {:induction false} SelectTrue<T(!new)>(xs: seq<T>, ad: seq<bool>, good: iset<T>)
    requires |xs| == |ad| && forall i :: 0 <= i < |xs| && ad[i] ==> xs[i] in good
    ensures forall x :: x in Select(xs, ad) ==> x in good
    decreases |xs|
  {
    if xs != [] {
      SelectTrue(xs[1..], ad[1..], good);
    }
  }

  /** The bound arguments of a call are among the variables seen before it. */
  lemma CallArgsSeen(p: Rules<Symbol>, rw: set<Symbol>, base: DB<Symbol>, adorned: Rules<MagicSymbol>,
                     h: MagicSymbol, idx: nat, k: nat)
    requires Ready(p, rw, base) && IsAdorned(p, rw, adorned)
    requires h in adorned && adorned[h].Rules? && idx < |adorned[h].rules|
    requires k < |adorned[h].rules[idx].body| && IsBoundCall(adorned[h].rules[idx].body[k])
    ensures var r := adorned[h].rules[idx];
            forall s :: s in Select(r.body[k].args, r.body[k].name.MagicAdornment()) ==> s in SeenSet(h, idx, r, k)
  {
    hide RewriteBody;
    AdornedOwn(p, rw, base, adorned, h, idx);
    var orig, r := p[h.inner].rules[idx], adorned[h].rules[idx];
    var seen := HeadBound(orig.head, h.MagicAdornment());
    var args := orig.body[k].args;
    var before := SeenBefore(orig.body, seen, rw, k);
    assert r.body[k] == AdornAtom(orig.body[k], before, rw);
    assert r.body[k].name.MagicAdornment() == AdornArgs(args, before);
    SeenBeforeIn(orig.body, seen, rw, k);
    SeenIs(h, idx, r, k);
    PlainPrefixBinds(orig, seen, rw, k);
    DistinctArgs(orig, rw, k);
    SelectTrue(args, AdornArgs(args, before), iset s | s in SeenSet(h, idx, r, k));
  }

  lemma DistinctArgs(orig: InlineRule<Symbol>, rw: set<Symbol>, k: nat)
    requires RuleReady(orig, rw) && k < |orig.body| && orig.body[k].Rule? && orig.body[k].name in rw
    ensures forall i :: 0 <= i < |orig.body[k].args| ==> orig.body[k].args[i] !in orig.body[k].args[..i]
  {
  }

  lemma PlainPrefixBinds(orig: InlineRule<Symbol>, seen: set<Symbol>, rw: set<Symbol>, k: nat)
    requires k <= |orig.body|
    ensures BodyBinds(AdornRule(orig, seen, rw).body[..k]) == BodyBinds(orig.body[..k])
  {
    hide Binds, AdornAtom;
    var r := AdornRule(orig, seen, rw);
    forall i | 0 <= i < k
      ensures Binds(orig.body[..k][i]) == Binds(r.body[..k][i])
    {
      AdornAtomShape(orig.body[i], SeenBefore(orig.body, seen, rw, i), rw);
    }
    SameBinds(orig.body[..k], r.body[..k]);
  }

  /** Everything the completeness argument about one rule refers to. */
  ghost predicate Setting(w: World, p: Rules<Symbol>, rw: set<Symbol>, base: DB<Symbol>, adorned: Rules<MagicSymbol>, m: Rules<MagicSymbol>,
                          lm: DB<MagicSymbol>, h: MagicSymbol, idx: nat, r: InlineRule<MagicSymbol>, env: Env) {
    && Rewrites(p, rw, base, adorned, m) && IsModel(w, m, MuggleBase(base), lm)
    && OwnRule(adorned, h, idx, r)
    && env.Keys == BodyBinds(r.body)
    && PrefixHolds(w, AnsweredFacts(rw, adorned, lm), base, r, |r.body|, env)
    && Bound(r.head, env) && Asked(lm, h.inner, h.MagicAdornment(), Row(r.head, env))
  }

  /** An atom answered by the original meaning holds after the rewrite, once its call has been made. */
  lemma AnsweredAtom(w: World, p: Rules<Symbol>, rw: set<Symbol>, base: DB<Symbol>, adorned: Rules<MagicSymbol>, lm: DB<MagicSymbol>,
                     h: MagicSymbol, idx: nat, k: nat, env: Env)
    requires IsAdorned(p, rw, adorned) && h in adorned && adorned[h].Rules? && idx < |adorned[h].rules|
    requires k < |adorned[h].rules[idx].body|
    requires Holds(w, AnsweredFacts(rw, adorned, lm), base, PlainAtom(adorned[h].rules[idx].body[k]), env)
    requires var a := adorned[h].rules[idx].body[k];
             IsBoundCall(a) ==> Bound(a.args, env) && Asked(lm, a.name.inner, a.name.MagicAdornment(), Row(a.args, env))
    ensures Holds(w, lm, MuggleBase(base), adorned[h].rules[idx].body[k], env)
  {
    var a := adorned[h].rules[idx].body[k];
    var orig := p[h.inner].rules[idx];
    assert a == AdornAtom(orig.body[k], SeenBefore(orig.body, HeadBound(orig.head, h.MagicAdornment()), rw, k), rw);
    if a.Rule? {
      assert Answered(rw, adorned, lm, Fact(a.name.inner, Row(a.args, env)));
      if a.name.Magic? {
        assert a.name == Magic(a.name.inner, a.name.adornment);
        assert CallsDefined(adorned, adorned[h].rules);
      }
    } else if a.NegatedRule? {
      assert forall t :: Fact(a.name.inner, t) in base <==> Fact(a.name, t) in MuggleBase(base);
    }
  }

  lemma StartHolds(w: World, p: Rules<Symbol>, rw: set<Symbol>, base: DB<Symbol>, adorned: Rules<MagicSymbol>, m: Rules<MagicSymbol>,
                   lm: DB<MagicSymbol>, h: MagicSymbol, idx: nat, r: InlineRule<MagicSymbol>, env: Env)
    requires Setting(w, p, rw, base, adorned, m, lm, h, idx, r, env)
    ensures AllHold(w, lm, MuggleBase(base), RewriteBody(h, idx, r, 0).atoms, env)
  {
    hide IsModel, IsRewritten, IsAdorned, Ready, PrefixHolds, BodyBinds, MuggleBase, RewriteRule, AdornedReady, AnsweredFacts;
    if h.HasBoundAdornment() {
      var e, args := StartRule(h, idx, r), Select(r.head, h.MagicAdornment());
      RuleEmits(h, idx, r, e);
      SelectRow(r.head, h.MagicAdornment(), env);
      var env' := Restrict(env, SetOf(args));
      BodyBindsOne(e.rule.body[0]);
      RowFrame(args, env, env');
      AllHoldBody(w, lm, MuggleBase(base), e.rule.body, env');
      Fires(w, adorned, m, MuggleBase(base), lm, h, idx, e, env');
    }
  }

  /** Before a bound call, the supplementary relation and the input relation get their facts. */
  lemma CallIsAsked(w: World, p: Rules<Symbol>, rw: set<Symbol>, base: DB<Symbol>, adorned: Rules<MagicSymbol>, m: Rules<MagicSymbol>,
                    lm: DB<MagicSymbol>, h: MagicSymbol, idx: nat, r: InlineRule<MagicSymbol>, k: nat, env: Env)
    requires Setting(w, p, rw, base, adorned, m, lm, h, idx, r, env)
    requires k < |r.body| && IsBoundCall(r.body[k]) && Bound(r.body[k].args, env)
    requires AllHold(w, lm, MuggleBase(base), RewriteBody(h, idx, r, k).atoms, env)
    ensures var st := RewriteBody(h, idx, r, k);
            Holds(w, lm, MuggleBase(base), Rule(SupName(h, idx, st.sups), st.seen), env)
    ensures Asked(lm, r.body[k].name.inner, r.body[k].name.MagicAdornment(), Row(r.body[k].args, env))
  {
    hide IsModel, IsRewritten, IsAdorned, Ready, PrefixHolds, BodyBinds, MuggleBase, RewriteRule, RewriteBody, AdornedReady, AnsweredFacts, AllHold, IsPlain;
    var st, keys, mb := RewriteBody(h, idx, r, k), SeenSet(h, idx, r, k), MuggleBase(base);
    var sup, input := SupRule(h, idx, r, k), InputRule(h, idx, r, k);
    assert IsCallRule(h, idx, r, k, sup) && IsCallRule(h, idx, r, k, input);
    RuleEmits(h, idx, r, sup);
    RuleEmits(h, idx, r, input);
    var env' := Restrict(env, keys);
    SeenIs(h, idx, r, k);
    SeenInBody(h, idx, r, k);
    PlainIsPlain(st.seen, st.atoms);
    PlainIsPlain(input.rule.head, input.rule.body);
    PendingRestrict(w, lm, mb, h, idx, r, k, env);
    AllHoldBody(w, lm, mb, st.atoms, env');
    Fires(w, adorned, m, mb, lm, h, idx, sup, env');
    RowFrame(st.seen, env, env');
    BodyBindsOne(input.rule.body[0]);
    OneHolds(w, lm, mb, input.rule.body, env');
    CallArgsSeen(p, rw, base, adorned, h, idx, k);
    Fires(w, adorned, m, mb, lm, h, idx, input, env');
    SelectRow(r.body[k].args, r.body[k].name.MagicAdornment(), env);
    RowFrame(input.rule.head, env, env');
  }

  lemma OneHolds<S(!new)>(w: World, pos: DB<S>, neg: DB<S>, body: seq<Atom<S>>, env: Env)
    requires |body| == 1 && env.Keys == Binds(body[0]) && Holds(w, pos, neg, body[0], env)
    ensures BodyHolds(w, pos, neg, body, env)
  {
    hide Holds, Binds;
    BodyBindsOne(body[0]);
    assert body == [body[0]];
  }

  lemma PlainIsPlain(head: seq<Symbol>, body: seq<Atom<MagicSymbol>>)
    ensures IsPlain(PlainRule(head, body))
  {
  }

  /** All pending atoms hold after the rewrite, wherever the body has been cut. */
  lemma {:induction false} CompletePrefix(w: World, p: Rules<Symbol>, rw: set<Symbol>, base: DB<Symbol>, adorned: Rules<MagicSymbol>,
                                          m: Rules<MagicSymbol>, lm: DB<MagicSymbol>,
                                          h: MagicSymbol, idx: nat, r: InlineRule<MagicSymbol>, k: nat, env: Env)
    requires Setting(w, p, rw, base, adorned, m, lm, h, idx, r, env) && k <= |r.body|
    ensures AllHold(w, lm, MuggleBase(base), RewriteBody(h, idx, r, k).atoms, env)
    decreases k
  {
    hide Holds, IsModel, IsRewritten, IsAdorned, Ready, BodyBinds, MuggleBase, Step, AdornedReady, AnsweredFacts, IsBoundCall, PlainAtom, Asked;
    if k == 0 {
      StartHolds(w, p, rw, base, adorned, m, lm, h, idx, r, env);
    } else {
      CompletePrefix(w, p, rw, base, adorned, m, lm, h, idx, r, k - 1, env);
      var a, st := r.body[k - 1], RewriteBody(h, idx, r, k - 1);
      assert Holds(w, AnsweredFacts(rw, adorned, lm), base, PlainAtom(a), env);
      if IsBoundCall(a) {
        StepSup(h, idx, st, a);
        CallBound(w, AnsweredFacts(rw, adorned, lm), base, a, env);
        CallIsAsked(w, p, rw, base, adorned, m, lm, h, idx, r, k - 1, env);
      } else {
        StepPlain(h, idx, st, a);
      }
      AnsweredAtom(w, p, rw, base, adorned, lm, h, idx, k - 1, env);
    }
  }

  lemma CallBound(w: World, pos: DB<Symbol>, neg: DB<Symbol>, a: Atom<MagicSymbol>, env: Env)
    requires IsBoundCall(a) && Holds(w, pos, neg, PlainAtom(a), env)
    ensures a.Rule? && Bound(a.args, env)
  {
  }

  /** If a rule's body is answered and the head is asked for by `h`, the rewritten rules of `h` yield it. */
  lemma CompleteRule(w: World, p: Rules<Symbol>, rw: set<Symbol>, base: DB<Symbol>, adorned: Rules<MagicSymbol>, m: Rules<MagicSymbol>,
                     lm: DB<MagicSymbol>, h: MagicSymbol, idx: nat, env: Env, t: Tuple)
    requires Rewrites(p, rw, base, adorned, m) && IsModel(w, m, MuggleBase(base), lm)
    requires h in adorned && adorned[h].Rules? && idx < |adorned[h].rules| && idx < |p[h.inner].rules|
    requires Yields(w, AnsweredFacts(rw, adorned, lm), base, p[h.inner].rules[idx], env, t)
    requires Asked(lm, h.inner, h.MagicAdornment(), t)
    ensures Fact(h, t) in lm
  {
    hide Holds, IsModel, IsRewritten, Ready, BodyBinds, MuggleBase, AdornedReady, AnsweredFacts, Asked, RewriteRule, PlainAtom;
    AdornedOwn(p, rw, base, adorned, h, idx);
    var orig, r := p[h.inner].rules[idx], adorned[h].rules[idx];
    AnsweredPrefix(w, AnsweredFacts(rw, adorned, lm), base, orig, HeadBound(orig.head, h.MagicAdornment()), rw, env);
    CompletePrefix(w, p, rw, base, adorned, m, lm, h, idx, r, |r.body|, env);
    var e := FinalRule(h, idx, r);
    RuleEmits(h, idx, r, e);
    SeenIs(h, idx, r, |r.body|);
    assert r.body[..|r.body|] == r.body;
    HeadInBody(h, r);
    AllHoldBody(w, lm, MuggleBase(base), e.rule.body, env);
    Fires(w, adorned, m, MuggleBase(base), lm, h, idx, e, env);
  }

  lemma AnsweredPrefix(w: World, pos: DB<Symbol>, base: DB<Symbol>, orig: InlineRule<Symbol>, seen: set<Symbol>, rw: set<Symbol>, env: Env)
    requires BodyHolds(w, pos, base, orig.body, env)
    ensures var r := AdornRule(orig, seen, rw);
            env.Keys == BodyBinds(r.body) && PrefixHolds(w, pos, base, r, |r.body|, env)
  {
    hide Holds, PlainAtom, AdornAtom, Binds;
    var r := AdornRule(orig, seen, rw);
    forall i | 0 <= i < |orig.body|
      ensures Holds(w, pos, base, PlainAtom(r.body[i]), env) && Binds(orig.body[i]) == Binds(r.body[i])
    {
      AdornAtomShape(orig.body[i], SeenBefore(orig.body, seen, rw, i), rw);
    }
    SameBinds(orig.body, r.body);
  }

  lemma CompleteModel(w: World, p: Rules<Symbol>, rw: set<Symbol>, base: DB<Symbol>, adorned: Rules<MagicSymbol>, m: Rules<MagicSymbol>,
                      lm: DB<MagicSymbol>)
    requires Rewrites(p, rw, base, adorned, m) && IsModel(w, m, MuggleBase(base), lm)
    ensures IsModel(w, p, base, AnsweredFacts(rw, adorned, lm))
  {
    hide Yields, IsRewritten, RuleReady;
    var answered := AnsweredFacts(rw, adorned, lm);
    forall f | f in base
      ensures f in answered
    {
      assert Fact(Muggle(f.name), f.tuple) in MuggleBase(base);
    }
    forall f | Derives(w, p, answered, base, f)
      ensures f in answered
    {
      var r, env :| HasRule(p, f.name, r) && Yields(w, answered, base, r, env, f.tuple);
      var idx :| 0 <= idx < |p[f.name].rules| && p[f.name].rules[idx] == r;
      if f.name !in rw {
        assert Muggle(f.name) in adorned;
        CompleteRule(w, p, rw, base, adorned, m, lm, Muggle(f.name), idx, env, f.tuple);
      } else {
        forall ad | Magic(f.name, ad) in adorned && Asked(lm, f.name, ad, f.tuple)
          ensures Fact(Magic(f.name, ad), f.tuple) in lm
        {
          CompleteRule(w, p, rw, base, adorned, m, lm, Magic(f.name, ad), idx, env, f.tuple);
        }
      }
    }
  }

  /** Every original fact is there after the rewrite: under its plain name if the rule was left alone,
      and otherwise under each adorned name whose input relation holds its bound columns. */
  lemma MagicComplete(w: World, p: Rules<Symbol>, rw: set<Symbol>, base: DB<Symbol>, adorned: Rules<MagicSymbol>, m: Rules<MagicSymbol>,
                      f: Fact<Symbol>)
    requires Rewrites(p, rw, base, adorned, m) && f in Least(w, p, base)
    ensures Answered(rw, adorned, Least(w, m, MuggleBase(base)), f)
  {
    hide Rewrites, IsModel, Answered;
    var lm := Least(w, m, MuggleBase(base));
    LeastIsModel(w, m, MuggleBase(base));
    CompleteModel(w, p, rw, base, adorned, m, lm);
    LeastInModel(w, p, base, AnsweredFacts(rw, adorned, lm));
  }

  /** Relations that keep their plain name have exactly their original contents. */
  lemma MagicPreserves(w: World, p: Rules<Symbol>, rw: set<Symbol>, base: DB<Symbol>, adorned: Rules<MagicSymbol>, m: Rules<MagicSymbol>,
                       n: Symbol, t: Tuple)
    requires Rewrites(p, rw, base, adorned, m) && n !in rw
    ensures Fact(Muggle(n), t) in Least(w, m, MuggleBase(base)) <==> Fact(n, t) in Least(w, p, base)
  {
    hide Rewrites, Least;
    if Fact(Muggle(n), t) in Least(w, m, MuggleBase(base)) {
      MagicSound(w, p, rw, base, adorned, m, Fact(Muggle(n), t));
    }
    if Fact(n, t) in Least(w, p, base) {
      MagicComplete(w, p, rw, base, adorned, m, Fact(n, t));
    }
  }
}
