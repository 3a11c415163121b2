/** Relations read at a point in time: the rewrite leaves their validity column as free as the program does. */
module StageVersions {
  import opened Wrappers
  import opened Exprs
  import opened Program
  import opened Datalog
  import opened Stratify
  import opened MagicSets
  import opened MagicCorrect
  import opened StrataMagic
  import opened StageReady
  import opened Compile
  import opened StageCompiles
  import MagicFinite

  /** The atom reads a relation at a time, with this variable for the validity. */
  ghost predicate ReadsVersion<S>(cat: Catalog, a: Atom<S>, v: Symbol) {
    && a.Relation? && a.validAt.Some? && a.rel in cat.stored
    && 0 < cat.stored[a.rel].keys <= |a.args| && v == a.args[cat.stored[a.rel].keys - 1]
  }

  /** What a test compares. */
  ghost function Compared<S>(a: Atom<S>): set<Symbol> {
    if a.Predicate? || a.Unification? then Binds(a) + Uses(a) else {}
  }

  /** The validity of a relation read at a time is not bound before, nor compared in a test: neither can become part of a bound, and
      the scan is one over whole rows. */
  ghost predicate ReadsWhole<S>(cat: Catalog, body: seq<Atom<S>>) {
    forall i, v :: 0 <= i < |body| && ReadsVersion(cat, body[i], v) ==>
      v !in BodyBinds(body[..i]) && forall j :: 0 <= j < |body| ==> v !in Compared(body[j])
  }

  /** The rule is never specialised to the way it is called. */
  ghost predicate KeepsName(rules: seq<InlineRule<Symbol>>, k: Symbol, disabled: bool) {
    disabled || k == PROG_ENTRY || HasAggr(rules)
  }

  /** So it is in all rules that the query uses, and where a call may bind the head, the head does not show a validity. */
  ghost predicate QueryReadsWhole(cat: Catalog, prog: Prog, disabled: bool) {
    forall k, l :: k in prog && Reachable(prog, k) && prog[k].Rules? && 0 <= l < |prog[k].rules| ==>
      RuleReadsWhole(cat, prog[k].rules, k, disabled, l)
  }

  ghost predicate RuleReadsWhole(cat: Catalog, rules: seq<InlineRule<Symbol>>, k: Symbol, disabled: bool, l: nat)
    requires l < |rules|
  {
    && ReadsWhole(cat, rules[l].body)
    && (!KeepsName(rules, k, disabled) ==> forall i, v :: 0 <= i < |rules[l].body| && ReadsVersion(cat, rules[l].body[i], v) ==> v !in rules[l].head)
  }

  /** Before a pending atom of the body, only what comes before it in the body is bound, and what the call binds. */
  lemma {:induction false} BoundBefore(h: MagicSymbol, idx: nat, r: InlineRule<MagicSymbol>, k: nat, p: nat)
    requires k <= |r.body| && p < |RewriteBody(h, idx, r, k).atoms| && !RewriteBody(h, idx, r, k).atoms[p].Rule?
    ensures var atoms := RewriteBody(h, idx, r, k).atoms;
            && |atoms| - p <= k && atoms[p] == r.body[k - (|atoms| - p)]
            && BodyBinds(atoms[..p]) <= HeadBound(r.head, h.MagicAdornment()) + BodyBinds(r.body[..k - (|atoms| - p)])
    decreases k
  {
    hide InsertAll, BindList, Select, BodyBinds, HeadBound, Step;
    PendingFrom(h, idx, r, k, p);
    var atoms := RewriteBody(h, idx, r, k).atoms;
    var st, a := RewriteBody(h, idx, r, k - 1), r.body[k - 1];
    SeenIs(h, idx, r, k - 1);
    if IsBoundCall(a) {
      StepSup(h, idx, st, a);
    } else {
      StepPlain(h, idx, st, a);
      if p < |st.atoms| {
        BoundBefore(h, idx, r, k - 1, p);
        assert atoms[..p] == st.atoms[..p];
      } else {
        assert atoms[..p] == st.atoms;
      }
    }
  }

  lemma AdornedVersion(w: Rewriting, cat: Catalog, i: nat, h: MagicSymbol, idx: nat, ar: InlineRule<MagicSymbol>, r: InlineRule<Symbol>, j: nat, v: Symbol)
    requires ComesFrom(w, i, h, idx, ar, r) && j < |ar.body|
    ensures |ar.body| == |r.body| && BodyBinds(ar.body[..j]) == BodyBinds(r.body[..j])
    ensures ReadsVersion(cat, ar.body[j], v) <==> ReadsVersion(cat, r.body[j], v)
    ensures Compared(ar.body[j]) == Compared(r.body[j])
  {
    hide OwnRule, RulesWellFormed, HeadBound, Rewritten, SeenBefore, BodyBinds;
    forall l | 0 <= l < j
      ensures Binds(ar.body[l]) == Binds(r.body[l])
    {
    }
    SameBinds(r.body[..j], ar.body[..j]);
  }

  /** Where the call binds something, the rule is specialised. */
  lemma CallBinds(w: Rewriting, i: nat, h: MagicSymbol, idx: nat, ar: InlineRule<MagicSymbol>, r: InlineRule<Symbol>, v: Symbol)
    requires Done(w) && ComesFrom(w, i, h, idx, ar, r) && v in HeadBound(ar.head, h.MagicAdornment())
    ensures v in r.head && !KeepsName(w.prog[h.inner].rules, h.inner, w.disabled)
  {
    hide Normalised, Accepted, IsRewritten, AdornRules, CallsDefined, RulesWellFormed, OwnRule, HasAggr, AdornBody;
    SelectIn(ar.head, h.MagicAdornment());
    if !h.HasBoundAdornment() {
      MagicFinite.NothingBound(ar.head, h);
    }
    assert StratumDone(w.strata, w.disabled, i, w.ads[i], w.outs[i]);
    assert h.inner in Rewritten(w.strata, w.disabled, i);
    ExemptGrows(w.strata, w.disabled, 0, i);
  }

  lemma PendingReadsWhole(w: Rewriting, cat: Catalog, i: nat, h: MagicSymbol, idx: nat, ar: InlineRule<MagicSymbol>, r: InlineRule<Symbol>, k: nat)
    requires Done(w) && ComesFrom(w, i, h, idx, ar, r) && k <= |ar.body|
    requires RuleReadsWhole(cat, w.prog[h.inner].rules, h.inner, w.disabled, idx) && r == w.prog[h.inner].rules[idx]
    ensures ReadsWhole(cat, RewriteBody(h, idx, ar, k).atoms)
  {
    hide Done, ComesFrom, RewriteBody, BodyBinds, HeadBound, KeepsName, ReadsVersion, Compared;
    var atoms := RewriteBody(h, idx, ar, k).atoms;
    forall p, v | 0 <= p < |atoms| && ReadsVersion(cat, atoms[p], v)
      ensures v !in BodyBinds(atoms[..p]) && forall q :: 0 <= q < |atoms| ==> v !in Compared(atoms[q])
    {
      VersionIsRelation(cat, atoms[p], v);
      BoundBefore(h, idx, ar, k, p);
      var j := k - (|atoms| - p);
      AdornedVersion(w, cat, i, h, idx, ar, r, j, v);
      if v in HeadBound(ar.head, h.MagicAdornment()) {
        CallBinds(w, i, h, idx, ar, r, v);
      }
      forall q | 0 <= q < |atoms|
        ensures v !in Compared(atoms[q])
      {
        if v in Compared(atoms[q]) {
          ComparedIsTest(atoms[q], v);
          BoundBefore(h, idx, ar, k, q);
          AdornedVersion(w, cat, i, h, idx, ar, r, k - (|atoms| - q), v);
        }
      }
    }
  }

  lemma VersionIsRelation<S>(cat: Catalog, a: Atom<S>, v: Symbol)
    requires ReadsVersion(cat, a, v)
    ensures a.Relation?
  {
  }

  lemma ComparedIsTest<S>(a: Atom<S>, v: Symbol)
    requires v in Compared(a)
    ensures a.Predicate? || a.Unification?
  {
  }

  lemma OneReadsWhole(cat: Catalog, app: Atom<MagicSymbol>)
    requires app.Rule?
    ensures ReadsWhole(cat, [app])
  {
  }

  /** No rule of a rewritten stratum reads part of a row's versions, if no rule that the query uses does. */
  lemma StrataReadWhole(w: Rewriting, cat: Catalog, i: nat, s: MagicSymbol, r: InlineRule<MagicSymbol>)
    requires Done(w) && QueryReadsWhole(cat, w.prog, w.disabled) && i < |w.strata| && HasRule(w.outs[i], s, r)
    ensures ReadsWhole(cat, r.body)
  {
    hide Done, QueryReadsWhole, RewriteBody, RewriteRule, ComesFrom, ReadsWhole, RuleReadsWhole, Select, IsBoundCall;
    var h, idx := Emission(w, i, s, r);
    var ar, orig := Origin(w, i, h, idx);
    SameRule(w, i, h, idx, ar, orig);
    OriginReadsWhole(w, cat, i, h, idx, ar, orig);
    RuleEmits(h, idx, ar, Emitted(s, r));
    if Emitted(s, r) == FinalRule(h, idx, ar) {
      PendingReadsWhole(w, cat, i, h, idx, ar, orig, |ar.body|);
    } else if h.HasBoundAdornment() && Emitted(s, r) == StartRule(h, idx, ar) {
      OneReadsWhole(cat, Rule(InputName(h), Select(ar.head, h.MagicAdornment())));
    } else {
      var k: nat :| k < |ar.body| && IsCallRule(h, idx, ar, k, Emitted(s, r));
      if Emitted(s, r) == SupRule(h, idx, ar, k) {
        PendingReadsWhole(w, cat, i, h, idx, ar, orig, k);
      } else {
        var st := RewriteBody(h, idx, ar, k);
        OneReadsWhole(cat, Rule(SupName(h, idx, st.sups), st.seen));
      }
    }
  }

  lemma OriginReadsWhole(w: Rewriting, cat: Catalog, i: nat, h: MagicSymbol, idx: nat, ar: InlineRule<MagicSymbol>, r: InlineRule<Symbol>)
    requires Done(w) && QueryReadsWhole(cat, w.prog, w.disabled) && ComesFrom(w, i, h, idx, ar, r)
    ensures h.inner in w.prog && w.prog[h.inner].Rules? && idx < |w.prog[h.inner].rules| && r == w.prog[h.inner].rules[idx]
    ensures RuleReadsWhole(cat, w.prog[h.inner].rules, h.inner, w.disabled, idx)
  {
    hide Normalised, StratumDone, Ordered, KeptWhileUsed, Reachable, OwnRule, RulesWellFormed, RuleReadsWhole, AdornRule;
    assert InStratum(w.strata, h.inner, i);
    assert InSomeStratum(w.strata, h.inner);
  }
}
