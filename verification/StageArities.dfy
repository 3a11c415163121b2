/** The relations of rewritten strata have the numbers of columns that the program gives them. */
module StageArities {
  import opened Exprs
  import opened Program
  import opened Datalog
  import opened NamedGraph
  import opened Stratify
  import opened MagicSets
  import opened MagicCorrect
  import opened MagicRewrite
  import opened StrataMagic
  import opened StageReady
  import opened Compile
  import opened StageCompiles

  // ----- arities -----

  /** How many columns a relation has: those of the head of its first rule. */
  function ArityIn<S>(cat: Catalog, rf: RulesOrFixed<S>, name: Symbol): nat {
    match rf
    case Rules(rules) => if rules == [] then 0 else |rules[0].head|
    case Fixed(_, _) => cat.fixed(name)
  }

  function ProgArities(cat: Catalog, prog: Prog): map<Symbol, nat> {
    map k | k in prog :: ArityIn(cat, prog[k], k)
  }

  function StratumArities(cat: Catalog, m: MagicProg): map<MagicSymbol, nat> {
    map s | s in m :: ArityIn(cat, m[s], s.inner)
  }

  function MagicArities(cat: Catalog, ms: seq<MagicProg>): map<MagicSymbol, nat> {
    if ms == [] then map[] else MagicArities(cat, ms[..|ms| - 1]) + StratumArities(cat, ms[|ms| - 1])
  }

  /** Gathers the arities of all strata. */
  method StoreArities(cat: Catalog, ms: seq<MagicProg>) returns (arities: map<MagicSymbol, nat>)
    ensures arities == MagicArities(cat, ms)
  {
    hide StratumArities;
    arities := map[];
    for i := 0 to |ms|
      invariant arities == MagicArities(cat, ms[..i])
    {
      assert ms[..i + 1][..i] == ms[..i] && ms[..i + 1][i] == ms[i];
      arities := AddArities(cat, ms[i], arities);
    }
    assert ms[..|ms|] == ms;
  }

  method AddArities(cat: Catalog, m: MagicProg, before: map<MagicSymbol, nat>) returns (arities: map<MagicSymbol, nat>)
    ensures arities == before + StratumArities(cat, m)
  {
    hide ArityIn;
    arities := before;
    var names := ListKeys(m);
    for l := 0 to |names|
      invariant forall s :: s in arities <==> s in before || s in names[..l]
      invariant forall s :: s in arities ==> arities[s] == if s in names[..l] then ArityIn(cat, m[s], s.inner) else before[s]
    {
      assert names[..l + 1] == names[..l] + [names[l]];
      arities := arities[names[l] := ArityIn(cat, m[names[l]], names[l].inner)];
    }
    assert names[..|names|] == names;
  }

  lemma {:induction false} AritiesAt(cat: Catalog, ms: seq<MagicProg>, s: MagicSymbol, i: nat)
    requires i < |ms| && s in ms[i] && forall j :: 0 <= j < |ms| && s in ms[j] ==> j == i
    ensures s in MagicArities(cat, ms) && MagicArities(cat, ms)[s] == ArityIn(cat, ms[i][s], s.inner)
    decreases |ms|
  {
    var n := |ms| - 1;
    if i < n {
      AritiesAt(cat, ms[..n], s, i);
    }
  }

  lemma {:induction false} AritiesFrom(cat: Catalog, ms: seq<MagicProg>, s: MagicSymbol) returns (i: nat)
    requires s in MagicArities(cat, ms)
    ensures i < |ms| && s in ms[i]
    decreases |ms|
  {
    var n := |ms| - 1;
    if s in ms[n] {
      i := n;
    } else {
      i := AritiesFrom(cat, ms[..n], s);
    }
  }

  // ----- a relation belongs to one stratum -----

  lemma CallIsDefined(w: Rewriting, i: nat, h: MagicSymbol, idx: nat, k: nat)
    requires Done(w) && HasAdorned(w, i, h, idx) && k < |w.ads[i][h].rules[idx].body|
    requires w.ads[i][h].rules[idx].body[k].Rule? && w.ads[i][h].rules[idx].body[k].name.Magic?
    ensures var c := w.ads[i][h].rules[idx].body[k].name;
            c in w.ads[i] && w.ads[i][c].Rules? && c.inner in w.strata[i] && c.inner in Rewritten(w.strata, w.disabled, i)
  {
    hide Normalised, Accepted, Rewritten, AdornRules, AdornFixed, IsRewritten, NoEmptyRules, Called;
    assert StratumDone(w.strata, w.disabled, i, w.ads[i], w.outs[i]);
    assert CallsDefined(w.ads[i], w.ads[i][h].rules);
  }

  lemma BoundCallIsMagic(w: Rewriting, i: nat, h: MagicSymbol, idx: nat, ar: InlineRule<MagicSymbol>, r: InlineRule<Symbol>, k: nat)
    requires ComesFrom(w, i, h, idx, ar, r) && k < |ar.body| && IsBoundCall(ar.body[k])
    ensures ar.body[k].Rule? && ar.body[k].name.Magic? && |ar.body[k].args| == |ar.body[k].name.adornment|
    ensures r.body[k].Rule? && r.body[k].name == ar.body[k].name.inner && r.body[k].args == ar.body[k].args
  {
    hide RulesWellFormed, OwnRule, Rewritten, HeadBound, SeenBefore;
  }

  lemma KeyInStratum(w: Rewriting, i: nat, s: MagicSymbol)
    requires Done(w) && i < |w.strata| && s in w.outs[i]
    ensures s.inner in w.strata[i]
  {
    hide Normalised, Accepted, Rewritten, AdornRules, AdornFixed, IsRewritten, Called, CallsDefined, RewriteRule, RewriteBody, ComesFrom, Select, IsBoundCall;
    assert StratumDone(w.strata, w.disabled, i, w.ads[i], w.outs[i]);
    if w.outs[i][s].Rules? {
      var r := w.outs[i][s].rules[0];
      assert HasRule(w.outs[i], s, r);
      var h, idx := Emission(w, i, s, r);
      var ar, orig := Origin(w, i, h, idx);
      SameRule(w, i, h, idx, ar, orig);
      RuleEmits(h, idx, ar, Emitted(s, r));
      if SomeCallRule(h, idx, ar, |ar.body|, Emitted(s, r)) {
        var k: nat :| k < |ar.body| && IsCallRule(h, idx, ar, k, Emitted(s, r));
        BoundCallIsMagic(w, i, h, idx, ar, orig, k);
        CallIsDefined(w, i, h, idx, k);
      }
    }
  }

  lemma KeyInOne(w: Rewriting, i: nat, j: nat, s: MagicSymbol)
    requires Done(w) && i < |w.strata| && j < |w.strata| && s in w.outs[i] && s in w.outs[j]
    ensures i == j
  {
    hide Normalised, StratumDone, Ordered, KeptWhileUsed, Reachable;
    KeyInStratum(w, i, s);
    KeyInStratum(w, j, s);
    assert InStratum(w.strata, s.inner, i) && InStratum(w.strata, s.inner, j);
  }

  lemma ArityAt(w: Rewriting, cat: Catalog, i: nat, s: MagicSymbol)
    requires Done(w) && i < |w.strata| && s in w.outs[i]
    ensures s in MagicArities(cat, w.outs) && MagicArities(cat, w.outs)[s] == ArityIn(cat, w.outs[i][s], s.inner)
  {
    hide Normalised, Accepted, StratumDone, MagicArities, ArityIn;
    forall j | 0 <= j < |w.outs| && s in w.outs[j]
      ensures j == i
    {
      KeyInOne(w, i, j, s);
    }
    AritiesAt(cat, w.outs, s, i);
  }

  // ----- all rules of a relation have heads of one length -----

  lemma {:induction false} SelectLength<T, U>(xs: seq<T>, ys: seq<U>, adornment: seq<bool>)
    requires |xs| == |ys|
    ensures |Select(xs, adornment)| == |Select(ys, adornment)|
    decreases |xs|
  {
    if xs != [] && adornment != [] {
      SelectLength(xs[1..], ys[1..], adornment[1..]);
    }
  }

  /** How many columns the head of a rule under this name has. */
  ghost predicate HasLength(w: Rewriting, i: nat, s: MagicSymbol, n: nat)
    requires i < |w.ads|
  {
    match s
    case Muggle(k) => k in w.prog && w.prog[k].Rules? && w.prog[k].rules != [] && n == |w.prog[k].rules[0].head|
    case Magic(k, _) => k in w.prog && w.prog[k].Rules? && w.prog[k].rules != [] && n == |w.prog[k].rules[0].head|
    case Input(_, ad) => n == |Select(ad, ad)|
    case Sup(k, ad, idx, si) =>
      var h := Owner(w.ads[i], k, ad);
      && HasAdorned(w, i, h, idx)
      && var r := w.ads[i][h].rules[idx];
         exists p: nat :: p <= |r.body| && IsSupPos(h, idx, r, p, si) && n == |SupArgs(h, idx, r, p, si)|
  }

  lemma LengthUnique(w: Rewriting, i: nat, s: MagicSymbol, n: nat, n': nat)
    requires i < |w.ads| && HasLength(w, i, s, n) && HasLength(w, i, s, n')
    ensures n == n'
  {
    hide IsSupPos, SupArgs, Owner;
    if s.Sup? {
      var h := Owner(w.ads[i], s.inner, s.adornment);
      var r := w.ads[i][h].rules[s.ruleIdx];
      var p: nat :| p <= |r.body| && IsSupPos(h, s.ruleIdx, r, p, s.supIdx) && n == |SupArgs(h, s.ruleIdx, r, p, s.supIdx)|;
      var q: nat :| q <= |r.body| && IsSupPos(h, s.ruleIdx, r, q, s.supIdx) && n' == |SupArgs(h, s.ruleIdx, r, q, s.supIdx)|;
      SupPosUnique(h, s.ruleIdx, r, p, q, s.supIdx);
    }
  }

  lemma FinalLength(w: Rewriting, i: nat, h: MagicSymbol, idx: nat, ar: InlineRule<MagicSymbol>, r: InlineRule<Symbol>)
    requires ComesFrom(w, i, h, idx, ar, r)
    ensures HasLength(w, i, h, |ar.head|)
  {
    hide OwnRule, AdornRule, Rewritten;
    AdornedShape(w, i, h, idx, ar, r);
  }

  lemma SupLength(w: Rewriting, i: nat, h: MagicSymbol, idx: nat, ar: InlineRule<MagicSymbol>, r: InlineRule<Symbol>, p: nat, si: nat)
    requires ComesFrom(w, i, h, idx, ar, r) && p <= |ar.body| && IsSupPos(h, idx, ar, p, si)
    ensures HasLength(w, i, SupName(h, idx, si), |SupArgs(h, idx, ar, p, si)|)
  {
    hide RulesWellFormed, Rewritten, IsSupPos, SupArgs, Owner, AdornedReady, AdornRule;
  }

  lemma RuleLength(w: Rewriting, i: nat, s: MagicSymbol, r: InlineRule<MagicSymbol>)
    requires Done(w) && i < |w.strata| && HasRule(w.outs[i], s, r)
    ensures HasLength(w, i, s, |r.head|)
  {
    hide Done, RewriteBody, RewriteRule, ComesFrom, HasLength, Select, IsBoundCall, SupArgs;
    var h, idx := Emission(w, i, s, r);
    var ar, orig := Origin(w, i, h, idx);
    SameRule(w, i, h, idx, ar, orig);
    RuleEmits(h, idx, ar, Emitted(s, r));
    if Emitted(s, r) == FinalRule(h, idx, ar) {
      FinalLength(w, i, h, idx, ar, orig);
    } else if h.HasBoundAdornment() && Emitted(s, r) == StartRule(h, idx, ar) {
      StartPos(h, idx, ar);
      SupLength(w, i, h, idx, ar, orig, 0, 0);
    } else {
      var k: nat :| k < |ar.body| && IsCallRule(h, idx, ar, k, Emitted(s, r));
      if Emitted(s, r) == SupRule(h, idx, ar, k) {
        SupBeforeCall(h, idx, ar, k);
        SupLength(w, i, h, idx, ar, orig, k, RewriteBody(h, idx, ar, k).sups);
      } else {
        BoundCallIsMagic(w, i, h, idx, ar, orig, k);
        var a := ar.body[k];
        SelectLength(a.args, a.name.adornment, a.name.adornment);
        InputLength(w, i, a.name, |r.head|);
      }
    }
  }

  lemma InputLength(w: Rewriting, i: nat, c: MagicSymbol, n: nat)
    requires i < |w.ads| && n == |Select(c.MagicAdornment(), c.MagicAdornment())|
    ensures HasLength(w, i, InputName(c), n)
  {
    hide Select;
  }

  lemma StartPos(h: MagicSymbol, idx: nat, r: InlineRule<MagicSymbol>)
    requires h.HasBoundAdornment()
    ensures IsSupPos(h, idx, r, 0, 0) && SupArgs(h, idx, r, 0, 0) == Select(r.head, h.MagicAdornment())
  {
    hide Select;
  }

  /** The arity recorded for a relation is that of each of its rules. */
  lemma ArityIs(w: Rewriting, cat: Catalog, i: nat, s: MagicSymbol, r: InlineRule<MagicSymbol>)
    requires Done(w) && i < |w.strata| && HasRule(w.outs[i], s, r)
    ensures s in MagicArities(cat, w.outs) && MagicArities(cat, w.outs)[s] == |r.head|
  {
    hide Done, MagicArities, HasLength;
    ArityAt(w, cat, i, s);
    DoneSize(w);
    var r0 := w.outs[i][s].rules[0];
    assert HasRule(w.outs[i], s, r0);
    RuleLength(w, i, s, r0);
    RuleLength(w, i, s, r);
    LengthUnique(w, i, s, |r0.head|, |r.head|);
  }

  lemma DoneSize(w: Rewriting)
    requires Done(w)
    ensures |w.ads| == |w.outs| == |w.strata|
  {
    hide Normalised, Accepted, StratumDone;
  }
}
