/** The magic-sets rewrite keeps evaluation finite: the relations it adds take their values from the bodies of the original rules. */
module MagicFinite {
  import opened Wrappers
  import opened Values
  import opened Exprs
  import opened Program
  import opened Datalog
  import opened MagicSets
  import opened MagicCorrect
  import opened BodyEval

  /** All tuples of at most the given length over a set of values. */
  ghost function Tuples(vals: set<DataValue>, len: nat): (r: set<Tuple>)
    ensures forall t: Tuple :: |t| <= len && Over(vals, t) ==> t in r
  {
    if len == 0 then {[]}
    else
      var shorter := Tuples(vals, len - 1);
      var r := {[]} + (set v, t | v in vals && t in shorter :: [v] + t);
      assert forall t: Tuple :: |t| <= len && Over(vals, t) ==> t in r by {
        forall t: Tuple | |t| <= len && Over(vals, t)
          ensures t in r
        {
          if t != [] {
            assert t == [t[0]] + t[1..];
            assert t[0] in vals && t[1..] in shorter;
          }
        }
      }
      r
  }

  ghost predicate Over(vals: set<DataValue>, t: Tuple) {
    forall i :: 0 <= i < |t| ==> t[i] in vals
  }

  /** The values that any part of a body can take. */
  ghost function BodyValues(src: Source, pos: Tables<Symbol>, neg: Tables<Symbol>, p: Rules<Symbol>): set<DataValue> {
    set n, l, k, env, x | n in p && p[n].Rules? && 0 <= l < |p[n].rules| && 0 <= k <= |p[n].rules[l].body| &&
                          env in Assignments(src, pos, neg, p[n].rules[l].body, k) && x in env :: env[x]
  }

  /** What the stratum starts from and what follows in it, both finite. */
  ghost predicate FiniteBefore(src: Source, p: Rules<Symbol>, rw: set<Symbol>, base: DB<Symbol>, adorned: Rules<MagicSymbol>, m: Rules<MagicSymbol>,
                               tabs: Tables<Symbol>, neg: Tables<Symbol>) {
    Rewrites(p, rw, base, adorned, m) && Least(WorldOf(src), p, base) <= Facts(tabs) && base == Facts(neg)
  }

  /** Where the atoms passed hold, their variables have such values. */
  lemma PrefixValues(src: Source, p: Rules<Symbol>, rw: set<Symbol>, base: DB<Symbol>, adorned: Rules<MagicSymbol>, m: Rules<MagicSymbol>,
                     tabs: Tables<Symbol>, neg: Tables<Symbol>, h: MagicSymbol, idx: nat, k: nat, env: Env, x: Symbol)
    requires FiniteBefore(src, p, rw, base, adorned, m, tabs, neg)
    requires h in adorned && adorned[h].Rules? && idx < |adorned[h].rules| && k <= |adorned[h].rules[idx].body|
    requires env.Keys <= BodyBinds(adorned[h].rules[idx].body) && BodyBinds(adorned[h].rules[idx].body[..k]) <= env.Keys
    requires PrefixHolds(WorldOf(src), Least(WorldOf(src), p, base), base, adorned[h].rules[idx], k, env)
    requires x in BodyBinds(adorned[h].rules[idx].body[..k])
    ensures env[x] in BodyValues(src, tabs, neg, p)
  {
    hide Holds, PlainAtom, BodyBinds, Least, Ready, IsRewritten, Facts, WellOrdered, Binds, Assignments;
    var w := WorldOf(src);
    AdornedOwn(p, rw, base, adorned, h, idx);
    var orig, r := p[h.inner].rules[idx], adorned[h].rules[idx];
    var seen := HeadBound(orig.head, h.MagicAdornment());
    OrigOrdered(p, rw, base, h.inner, idx);
    PlainPrefixBinds(orig, seen, rw, k);
    PlainPrefixBinds(orig, seen, rw, |orig.body|);
    assert r.body[..|r.body|] == r.body && orig.body[..|orig.body|] == orig.body;
    var keys := BodyBinds(orig.body[..k]);
    var env' := Restrict(env, keys);
    assert env'.Keys == keys;
    forall j | 0 <= j < k
      ensures Holds(w, Facts(tabs), Facts(neg), orig.body[j], env')
    {
      AdornIsPlain(orig, seen, rw, j);
      assert Holds(w, Least(w, p, base), base, PlainAtom(r.body[j]), env);
      HoldsMonotone(w, Least(w, p, base), Facts(tabs), base, orig.body[j], env);
      Program.PassedVars(orig.body, j, k);
      HoldsRestrict(w, Facts(tabs), base, orig.body[j], env, keys, BodyBinds(orig.body));
    }
    AssignmentsIs(src, tabs, neg, orig.body, k, env');
    assert env' in Assignments(src, tabs, neg, p[h.inner].rules[idx].body, k);
    assert x in env' && env'[x] == env[x];
  }

  lemma OrigOrdered(p: Rules<Symbol>, rw: set<Symbol>, base: DB<Symbol>, n: Symbol, idx: nat)
    requires Ready(p, rw, base) && n in p && p[n].Rules? && idx < |p[n].rules|
    ensures WellOrdered(p[n].rules[idx].body)
  {
    assert RuleReady(p[n].rules[idx], rw);
  }

  /** After a bound head, the first pending atom applies a supplementary relation that lists the bound head variables. */
  lemma {:induction false} SupCarries(h: MagicSymbol, idx: nat, r: InlineRule<MagicSymbol>, k: nat)
    requires k <= |r.body| && h.HasBoundAdornment()
    ensures var atoms := RewriteBody(h, idx, r, k).atoms;
            atoms != [] && atoms[0].Rule? && atoms[0].name.Sup? && HeadBound(r.head, h.MagicAdornment()) <= SetOf(atoms[0].args)
    decreases k
  {
    hide InsertAll, BindList, HeadBound, BodyBinds, Select;
    if k == 0 {
      StartCarries(h, idx, r);
    } else {
      SupCarries(h, idx, r, k - 1);
      SeenIs(h, idx, r, k - 1);
    }
  }

  lemma StartCarries(h: MagicSymbol, idx: nat, r: InlineRule<MagicSymbol>)
    requires h.HasBoundAdornment()
    ensures var atoms := Start(h, idx, r).atoms;
            atoms != [] && atoms[0].Rule? && atoms[0].name.Sup? && HeadBound(r.head, h.MagicAdornment()) <= SetOf(atoms[0].args)
  {
  }

  // ----- a finite model -----

  ghost predicate IsAdded(s: MagicSymbol) {
    s.Sup? || s.Input?
  }

  /** Sound, and with known names; the added relations only hold known values. */
  ghost predicate Known(sound: DB<MagicSymbol>, names: set<MagicSymbol>, vals: set<DataValue>, len: nat, f: Fact<MagicSymbol>) {
    f in sound && f.name in names && (IsAdded(f.name) ==> Over(vals, f.tuple) && |f.tuple| <= len)
  }

  ghost function KnownFacts(sound: DB<MagicSymbol>, names: set<MagicSymbol>, vals: set<DataValue>, len: nat): DB<MagicSymbol> {
    iset f: Fact<MagicSymbol> | Known(sound, names, vals, len, f)
  }

  /** An application of an added relation only binds known values. */
  lemma AddedValues(w: World, sound: DB<MagicSymbol>, names: set<MagicSymbol>, vals: set<DataValue>, len: nat, neg: DB<MagicSymbol>,
                    a: Atom<MagicSymbol>, env: Env, x: Symbol)
    requires a.Rule? && IsAdded(a.name) && Holds(w, KnownFacts(sound, names, vals, len), neg, a, env) && x in a.args
    ensures x in env && env[x] in vals
  {
    var i :| 0 <= i < |a.args| && a.args[i] == x;
    assert Row(a.args, env)[i] == env[x];
    assert Known(sound, names, vals, len, Fact(a.name, Row(a.args, env)));
  }

  lemma SupValues(src: Source, p: Rules<Symbol>, rw: set<Symbol>, base: DB<Symbol>, adorned: Rules<MagicSymbol>, m: Rules<MagicSymbol>,
                  tabs: Tables<Symbol>, neg: Tables<Symbol>, names: set<MagicSymbol>, len: nat, h: MagicSymbol, idx: nat, k: nat, env: Env, x: Symbol)
    requires FiniteBefore(src, p, rw, base, adorned, m, tabs, neg)
    requires h in adorned && adorned[h].Rules? && idx < |adorned[h].rules| && k <= |adorned[h].rules[idx].body|
    requires var sound := SoundFacts(WorldOf(src), Least(WorldOf(src), p, base), base, adorned);
             AllHold(WorldOf(src), KnownFacts(sound, names, BodyValues(src, tabs, neg, p), len), MuggleBase(base),
                     RewriteBody(h, idx, adorned[h].rules[idx], k).atoms, env)
    requires env.Keys == SeenSet(h, idx, adorned[h].rules[idx], k) && x in env
    ensures env[x] in BodyValues(src, tabs, neg, p)
  {
    hide Holds, SoundFacts, MuggleBase, BodyBinds, Least, Ready, IsAdorned, IsRewritten, BodyValues, SeenSet, RewriteBody, Known, HeadBound, Facts;
    var w, r := WorldOf(src), adorned[h].rules[idx];
    var l := Least(w, p, base);
    var sound := SoundFacts(w, l, base, adorned);
    var vals := BodyValues(src, tabs, neg, p);
    AdornedOwn(p, rw, base, adorned, h, idx);
    SeenIs(h, idx, r, k);
    SeenInBody(h, idx, r, k);
    if x in BodyBinds(r.body[..k]) {
      KnownAreSound(sound, names, vals, len);
      forall a | a in RewriteBody(h, idx, r, k).atoms
        ensures Holds(w, sound, MuggleBase(base), a, env)
      {
        HoldsMonotone(w, KnownFacts(sound, names, vals, len), sound, MuggleBase(base), a, env);
      }
      SoundPrefix(w, l, base, adorned, h, idx, r, k, env);
      PrefixValues(src, p, rw, base, adorned, m, tabs, neg, h, idx, k, env, x);
    } else {
      assert h.HasBoundAdornment() by {
        if !h.HasBoundAdornment() { NothingBound(r.head, h); }
      }
      SupCarries(h, idx, r, k);
      var a := RewriteBody(h, idx, r, k).atoms[0];
      AddedValues(w, sound, names, vals, len, MuggleBase(base), a, env, x);
    }
  }

  lemma NothingBound(head: seq<Symbol>, h: MagicSymbol)
    requires !h.HasBoundAdornment()
    ensures HeadBound(head, h.MagicAdornment()) == {}
  {
    SelectNone(head, h.MagicAdornment());
  }

  lemma KnownAreSound(sound: DB<MagicSymbol>, names: set<MagicSymbol>, vals: set<DataValue>, len: nat)
    ensures KnownFacts(sound, names, vals, len) <= sound
  {
  }

  /** No rule has a longer head. */
  ghost predicate HeadsAtMost(m: Rules<MagicSymbol>, len: nat) {
    forall s, r :: HasRule(m, s, r) ==> |r.head| <= len
  }

  lemma SomeHeadLength(m: Rules<MagicSymbol>) returns (len: nat)
    ensures HeadsAtMost(m, len)
  {
    var lens := set s, l | s in m && m[s].Rules? && 0 <= l < |m[s].rules| :: |m[s].rules[l].head|;
    len := HasBound(lens);
    forall s, r | HasRule(m, s, r)
      ensures |r.head| <= len
    {
      var l :| 0 <= l < |m[s].rules| && m[s].rules[l] == r;
      assert |m[s].rules[l].head| in lens;
    }
  }

  /** Whatever a rule that defines an added relation yields from known facts is known. */
  lemma AddedRule(src: Source, p: Rules<Symbol>, rw: set<Symbol>, base: DB<Symbol>, adorned: Rules<MagicSymbol>, m: Rules<MagicSymbol>,
                  tabs: Tables<Symbol>, neg: Tables<Symbol>, names: set<MagicSymbol>, len: nat, h: MagicSymbol, idx: nat, e: Emitted, env: Env, x: Symbol)
    requires FiniteBefore(src, p, rw, base, adorned, m, tabs, neg) && Emits(adorned, e, h, idx) && IsAdded(e.key)
    requires var sound := SoundFacts(WorldOf(src), Least(WorldOf(src), p, base), base, adorned);
             BodyHolds(WorldOf(src), KnownFacts(sound, names, BodyValues(src, tabs, neg, p), len), MuggleBase(base), e.rule.body, env)
    requires x in e.rule.head && x in env
    ensures env[x] in BodyValues(src, tabs, neg, p)
  {
    hide Holds, SoundFacts, MuggleBase, Least, Ready, IsAdorned, IsRewritten, BodyValues, RewriteBody, KnownFacts, HeadBound, Facts, RewriteRule, BodyBinds;
    var w, r := WorldOf(src), adorned[h].rules[idx];
    var sound := SoundFacts(w, Least(w, p, base), base, adorned);
    var vals := BodyValues(src, tabs, neg, p);
    HeadsPlain(p, rw, adorned, h);
    RuleEmits(h, idx, r, e);
    if h.HasBoundAdornment() && e == StartRule(h, idx, r) {
      AddedValues(w, sound, names, vals, len, MuggleBase(base), e.rule.body[0], env, x);
    } else {
      var k: nat :| k < |r.body| && IsCallRule(h, idx, r, k, e);
      var st := RewriteBody(h, idx, r, k);
      if e == SupRule(h, idx, r, k) {
        SeenIs(h, idx, r, k);
        AllHoldBody(w, KnownFacts(sound, names, vals, len), MuggleBase(base), st.atoms, env);
        SupValues(src, p, rw, base, adorned, m, tabs, neg, names, len, h, idx, k, env, x);
      } else {
        assert e.rule.body[0] == Rule(SupName(h, idx, st.sups), st.seen);
        BodyBindsOne(e.rule.body[0]);
        assert x in st.seen by { InputBound(e.rule.body[0], env, x); }
        AddedValues(w, sound, names, vals, len, MuggleBase(base), e.rule.body[0], env, x);
      }
    }
  }

  lemma InputBound(app: Atom<MagicSymbol>, env: Env, x: Symbol)
    requires app.Rule? && env.Keys == Binds(app) && x in env
    ensures x in app.args
  {
  }

  lemma HeadsPlain(p: Rules<Symbol>, rw: set<Symbol>, adorned: Rules<MagicSymbol>, h: MagicSymbol)
    requires IsAdorned(p, rw, adorned) && h in adorned
    ensures h.Muggle? || h.Magic?
  {
  }

  lemma KnownModel(src: Source, p: Rules<Symbol>, rw: set<Symbol>, base: DB<Symbol>, adorned: Rules<MagicSymbol>, m: Rules<MagicSymbol>,
                   tabs: Tables<Symbol>, neg: Tables<Symbol>, names: set<MagicSymbol>, len: nat)
    requires FiniteBefore(src, p, rw, base, adorned, m, tabs, neg) && HeadsAtMost(m, len)
    requires names == m.Keys + set n | n in tabs :: Muggle(n)
    ensures var sound := SoundFacts(WorldOf(src), Least(WorldOf(src), p, base), base, adorned);
            IsModel(WorldOf(src), m, MuggleBase(base), KnownFacts(sound, names, BodyValues(src, tabs, neg, p), len))
  {
    hide SoundFacts, Least, Ready, IsAdorned, BodyValues, RewriteBody, HeadBound, RewriteRule, Holds, BodyBinds;
    var w := WorldOf(src);
    var l := Least(w, p, base);
    var sound, vals := SoundFacts(w, l, base, adorned), BodyValues(src, tabs, neg, p);
    var known := KnownFacts(sound, names, vals, len);
    SoundModel(w, p, rw, base, adorned, m);
    KnownAreSound(sound, names, vals, len);
    LeastIsModel(w, p, base);
    forall f | f in MuggleBase(base)
      ensures f in known
    {
      assert Fact(f.name.inner, f.tuple) in Facts(tabs);
      assert f.name == Muggle(f.name.inner);
    }
    forall f | Derives(w, m, known, MuggleBase(base), f)
      ensures f in known
    {
      DerivesMonotone(w, m, known, sound, MuggleBase(base), f);
      var r, env :| HasRule(m, f.name, r) && Yields(w, known, MuggleBase(base), r, env, f.tuple);
      assert EmittedBySome(adorned, Emitted(f.name, r));
      var h, idx: nat :| Emits(adorned, Emitted(f.name, r), h, idx);
      if IsAdded(f.name) {
        forall i | 0 <= i < |f.tuple|
          ensures f.tuple[i] in vals
        {
          AddedRule(src, p, rw, base, adorned, m, tabs, neg, names, len, h, idx, Emitted(f.name, r), env, r.head[i]);
        }
      }
    }
  }

  /** If the original stratum has finitely many facts, so has the rewritten one. */
  lemma RewriteStaysFinite(src: Source, p: Rules<Symbol>, rw: set<Symbol>, base: DB<Symbol>, adorned: Rules<MagicSymbol>, m: Rules<MagicSymbol>,
                           tabs: Tables<Symbol>, neg: Tables<Symbol>) returns (bound: set<Fact<MagicSymbol>>)
    requires FiniteBefore(src, p, rw, base, adorned, m, tabs, neg)
    ensures forall f :: f in Least(WorldOf(src), m, MuggleBase(base)) ==> f in bound
  {
    hide Least, BodyValues, Rewrites, MuggleBase, HasRule;
    var w := WorldOf(src);
    var names := m.Keys + set n | n in tabs :: Muggle(n);
    var vals := BodyValues(src, tabs, neg, p);
    var len := SomeHeadLength(m);
    var sound := SoundFacts(w, Least(w, p, base), base, adorned);
    var known := KnownFacts(sound, names, vals, len);
    KnownModel(src, p, rw, base, adorned, m, tabs, neg, names, len);
    LeastInModel(w, m, MuggleBase(base), known);
    bound := (set s, t | s in names && s.inner in tabs && t in tabs[s.inner] :: Fact(s, t)) +
             (set s, t | s in names && t in Tuples(vals, len) :: Fact(s, t));
    forall f | f in known
      ensures f in bound
    {
      assert f == Fact(f.name, f.tuple);
      assert Known(sound, names, vals, len, f);
      if !IsAdded(f.name) {
        assert SoundFact(w, Least(w, p, base), base, adorned, f);
        assert Fact(f.name.inner, f.tuple) in Facts(tabs);
      }
    }
  }
}
