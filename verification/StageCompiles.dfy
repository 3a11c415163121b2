/** The rewritten strata compile exactly if the rules that the query uses do. */
module StageCompiles {
  import opened Wrappers
  import opened Exprs
  import opened Program
  import opened Datalog
  import opened Stratify
  import opened MagicSets
  import opened MagicCorrect
  import opened MagicRewrite
  import opened SemiNaive
  import opened StrataMagic
  import opened StageReady
  import opened Compile
  import opened Reorder

  // ----- distinct columns -----

  lemma {:induction false} InsertNewDistinct(v: seq<Symbol>, s: Symbol)
    requires Distinct(v) && s !in v
    ensures Distinct(InsertNew(v, s))
    decreases |v|
  {
    if v != [] && !Precedes(s, v[0]) {
      InsertNewDistinct(v[1..], s);
      assert v == [v[0]] + v[1..];
      var r := InsertNew(v[1..], s);
      assert forall i :: 0 <= i < |r| ==> r[i] in r;
    } else {
      assert forall i :: 0 <= i < |v| ==> v[i] in v;
    }
  }

  lemma {:induction false} InsertAllDistinct(v: seq<Symbol>, ss: seq<Symbol>)
    requires Distinct(v)
    ensures Distinct(InsertAll(v, ss))
    decreases |ss|
  {
    hide InsertNew;
    if ss != [] {
      var front := InsertAll(v, ss[..|ss| - 1]);
      InsertAllDistinct(v, ss[..|ss| - 1]);
      if ss[|ss| - 1] !in front {
        InsertNewDistinct(front, ss[|ss| - 1]);
      }
    }
  }

  lemma {:induction false} SelectDistinct(xs: seq<Symbol>, adornment: seq<bool>)
    requires Distinct(xs)
    ensures Distinct(Select(xs, adornment)) && forall x :: x in Select(xs, adornment) ==> x in xs
    decreases |xs|
  {
    if xs != [] && adornment != [] {
      SelectDistinct(xs[1..], adornment[1..]);
      assert xs == [xs[0]] + xs[1..];
      var r := Select(xs[1..], adornment[1..]);
      assert forall i :: 0 <= i < |r| ==> r[i] in r;
    }
  }

  lemma {:induction false} SeenDistinct(h: MagicSymbol, idx: nat, r: InlineRule<MagicSymbol>, k: nat)
    requires k <= |r.body|
    ensures Distinct(RewriteBody(h, idx, r, k).seen)
    decreases k
  {
    hide InsertAll, Select;
    if k == 0 {
      InsertAllDistinct([], Select(r.head, h.MagicAdornment()));
    } else {
      SeenDistinct(h, idx, r, k - 1);
      InsertAllDistinct(RewriteBody(h, idx, r, k - 1).seen, BindList(r.body[k - 1]));
    }
  }

  // ----- what a pending body is made of -----

  /** A pending atom is an application made by the rewrite, or stands where it stood in the body, counted from the end. */
  lemma {:induction false} PendingFrom(h: MagicSymbol, idx: nat, r: InlineRule<MagicSymbol>, k: nat, p: nat)
    requires k <= |r.body| && p < |RewriteBody(h, idx, r, k).atoms|
    ensures var atoms := RewriteBody(h, idx, r, k).atoms;
            atoms[p].Rule? || (|atoms| - p <= k && atoms[p] == r.body[k - (|atoms| - p)])
    decreases k
  {
    hide InsertAll, BindList, Select;
    if k > 0 {
      var st, a := RewriteBody(h, idx, r, k - 1), r.body[k - 1];
      if IsBoundCall(a) {
        StepSup(h, idx, st, a);
      } else {
        StepPlain(h, idx, st, a);
        if p < |st.atoms| {
          PendingFrom(h, idx, r, k - 1, p);
        }
      }
    }
  }

  /** An atom stays pending, with those that follow it, until the next bound call. */
  lemma {:induction false} StaysPending(h: MagicSymbol, idx: nat, r: InlineRule<MagicSymbol>, k: nat, j: nat)
    requires j < k <= |r.body| && forall l :: j < l < k ==> !IsBoundCall(r.body[l])
    ensures var atoms := RewriteBody(h, idx, r, k).atoms;
            k - j <= |atoms| && atoms[|atoms| - (k - j)] == r.body[j]
    decreases k
  {
    hide Step, IsBoundCall;
    var st, a := RewriteBody(h, idx, r, k - 1), r.body[k - 1];
    if IsBoundCall(a) {
      StepSup(h, idx, st, a);
    } else {
      StepPlain(h, idx, st, a);
      if j < k - 1 {
        StaysPending(h, idx, r, k - 1, j);
      }
    }
  }

  /** Every atom of the body is in one of the rules that come of it. */
  lemma AtomEmitted(h: MagicSymbol, idx: nat, r: InlineRule<MagicSymbol>, j: nat) returns (e: Emitted)
    requires j < |r.body|
    ensures e in RewriteRule(h, idx, r) && r.body[j] in e.rule.body
  {
    hide RewriteBody, RewriteRule, IsBoundCall;
    var k := j + 1;
    while k < |r.body| && !IsBoundCall(r.body[k])
      invariant j < k <= |r.body| && forall l :: j < l < k ==> !IsBoundCall(r.body[l])
    {
      k := k + 1;
    }
    StaysPending(h, idx, r, k, j);
    if k < |r.body| {
      e := SupRule(h, idx, r, k);
      assert IsCallRule(h, idx, r, k, e);
      assert SomeCallRule(h, idx, r, |r.body|, e);
    } else {
      e := FinalRule(h, idx, r);
    }
    RuleEmits(h, idx, r, e);
  }

  /** A pending atom is one of the body, or applies the head of a rule that was emitted. */
  ghost predicate AppliesEmitted(h: MagicSymbol, idx: nat, r: InlineRule<MagicSymbol>, x: Atom<MagicSymbol>) {
    exists e :: e in RewriteRule(h, idx, r) && e.key.Sup? && x == Rule(e.key, e.rule.head)
  }

  lemma {:induction false} PendingApplies(h: MagicSymbol, idx: nat, r: InlineRule<MagicSymbol>, k: nat, x: Atom<MagicSymbol>)
    requires k <= |r.body| && x in RewriteBody(h, idx, r, k).atoms
    ensures x in r.body || AppliesEmitted(h, idx, r, x)
    decreases k
  {
    hide RewriteRule, InsertAll, BindList, Select, AppliesEmitted;
    if k == 0 {
      StartApplies(h, idx, r, x);
    } else {
      var st, a := RewriteBody(h, idx, r, k - 1), r.body[k - 1];
      if x in st.atoms {
        PendingApplies(h, idx, r, k - 1, x);
      } else if x != a {
        SupApplies(h, idx, r, k - 1);
      }
    }
  }

  lemma StartApplies(h: MagicSymbol, idx: nat, r: InlineRule<MagicSymbol>, x: Atom<MagicSymbol>)
    requires x in Start(h, idx, r).atoms
    ensures AppliesEmitted(h, idx, r, x)
  {
    hide RewriteRule;
    RuleEmits(h, idx, r, StartRule(h, idx, r));
  }

  lemma SupApplies(h: MagicSymbol, idx: nat, r: InlineRule<MagicSymbol>, k: nat)
    requires k < |r.body| && IsBoundCall(r.body[k])
    ensures var st := RewriteBody(h, idx, r, k); AppliesEmitted(h, idx, r, Rule(SupName(h, idx, st.sups), st.seen))
  {
    hide RewriteRule, RewriteBody;
    var e := SupRule(h, idx, r, k);
    assert IsCallRule(h, idx, r, k, e);
    assert SomeCallRule(h, idx, r, |r.body|, e);
    RuleEmits(h, idx, r, e);
  }

  lemma {:induction false} PendingDistinct(h: MagicSymbol, idx: nat, r: InlineRule<MagicSymbol>, k: nat)
    requires k <= |r.body| && AllArgsDistinct(r.body) && Distinct(r.head)
    ensures AllArgsDistinct(RewriteBody(h, idx, r, k).atoms)
    decreases k
  {
    hide Distinct, InsertAll, BindList, Select;
    if k == 0 {
      SelectDistinct(r.head, h.MagicAdornment());
    } else {
      PendingDistinct(h, idx, r, k - 1);
      SeenDistinct(h, idx, r, k - 1);
      assert r.body[k - 1] in r.body;
    }
  }

  // ----- adornment -----

  lemma AdornSame(a: Atom<Symbol>, seen: set<Symbol>, rw: set<Symbol>)
    ensures var b := AdornAtom(a, seen, rw);
            && Columns(b) == Columns(a) && Binds(b) == Binds(a) && Negates(b) == Negates(a)
            && (b.NegatedRelation? <==> a.NegatedRelation?) && (b.NegatedRelation? ==> b.args == a.args)
            && (ArgsDistinct(b) <==> ArgsDistinct(a))
  {
  }

  lemma AdornDistinct(r: InlineRule<Symbol>, seen: set<Symbol>, rw: set<Symbol>)
    requires AllArgsDistinct(r.body)
    ensures AllArgsDistinct(AdornRule(r, seen, rw).body)
  {
    hide AdornAtom, ArgsDistinct;
    var body' := AdornRule(r, seen, rw).body;
    forall x | x in body'
      ensures ArgsDistinct(x)
    {
      var i :| 0 <= i < |body'| && body'[i] == x;
      assert r.body[i] in r.body;
      AdornSame(r.body[i], SeenBefore(r.body, seen, rw, i), rw);
    }
  }

  lemma AdornShares(r: InlineRule<Symbol>, seen: set<Symbol>, rw: set<Symbol>)
    ensures SharesSome(AdornRule(r, seen, rw).body) <==> SharesSome(r.body)
  {
    hide AdornAtom, Binds, BodyBinds, Negates;
    var body' := AdornBody(r.body, seen, rw);
    forall i | 0 <= i < |body'|
      ensures Binds(body'[i]) == Binds(r.body[i]) && Negates(body'[i]) == Negates(r.body[i])
      ensures body'[i].NegatedRelation? <==> r.body[i].NegatedRelation?
      ensures body'[i].NegatedRelation? ==> body'[i].args == r.body[i].args
    {
      AdornSame(r.body[i], SeenBefore(r.body, seen, rw, i), rw);
    }
    SameBinds(r.body, body');
    forall i, j, s
      ensures SharesUnbound(body', i, j, s) <==> SharesUnbound(r.body, i, j, s)
    {
    }
  }

  // ----- a program and what the rewrite makes of it -----

  datatype Rewriting = Rewriting(prog: Prog, strata: seq<Prog>, lifetimes: map<MagicSymbol, nat>, disabled: bool, ads: seq<MagicProg>, outs: seq<MagicProg>)

  ghost predicate Done(w: Rewriting) {
    && Normalised(w.prog) && Accepted(w.prog, w.strata, w.lifetimes) && |w.ads| == |w.outs| == |w.strata|
    && forall i: nat :: i < |w.strata| ==> StratumDone(w.strata, w.disabled, i, w.ads[i], w.outs[i])
  }

  lemma DoneAt(w: Rewriting, i: nat)
    requires Done(w) && i < |w.strata|
    ensures Staged(w.prog, w.strata, w.lifetimes, w.disabled, i, w.ads[i], w.outs[i])
  {
    hide Normalised, Accepted, StratumDone;
  }

  /** There is an adorned rule of this head and number. */
  ghost predicate HasAdorned(w: Rewriting, i: nat, h: MagicSymbol, idx: nat) {
    i < |w.ads| && h in w.ads[i] && w.ads[i][h].Rules? && idx < |w.ads[i][h].rules|
  }

  /** An adorned rule, and the rule of the program it comes from. */
  ghost predicate ComesFrom(w: Rewriting, i: nat, h: MagicSymbol, idx: nat, ar: InlineRule<MagicSymbol>, r: InlineRule<Symbol>) {
    && HasAdorned(w, i, h, idx) && ar == w.ads[i][h].rules[idx] && i < |w.strata| && OwnRule(w.ads[i], h, idx, ar) && (h.Muggle? || h.Magic?)
    && h.inner in w.strata[i] && h.inner in w.prog && w.prog[h.inner].Rules? && w.strata[i][h.inner] == w.prog[h.inner]
    && idx < |w.prog[h.inner].rules| && r == w.prog[h.inner].rules[idx] && RulesWellFormed(w.prog[h.inner].rules, w.prog.Keys)
    && ar == AdornRule(r, HeadBound(r.head, h.MagicAdornment()), Rewritten(w.strata, w.disabled, i))
  }

  lemma Origin(w: Rewriting, i: nat, h: MagicSymbol, idx: nat) returns (ar: InlineRule<MagicSymbol>, r: InlineRule<Symbol>)
    requires Done(w) && HasAdorned(w, i, h, idx)
    ensures ComesFrom(w, i, h, idx, ar, r)
  {
    hide Normalised, RulesWellFormed, OwnRule, Rewritten, HeadBound, Ordered, KeptWhileUsed, Called, IsRewritten, NoEmptyRules, AdornRules, CallsDefined, AdornFixed;
    DoneAt(w, i);
    StageOwn(w.prog, w.strata, w.lifetimes, w.disabled, i, w.ads[i], w.outs[i], h, idx);
    StageRules(w.prog, w.strata, i, h.inner);
    ar, r := w.ads[i][h].rules[idx], w.prog[h.inner].rules[idx];
  }

  /** What normalisation sees to, for the adorned rule. */
  lemma AdornedShape(w: Rewriting, i: nat, h: MagicSymbol, idx: nat, ar: InlineRule<MagicSymbol>, r: InlineRule<Symbol>)
    requires ComesFrom(w, i, h, idx, ar, r)
    ensures AllArgsDistinct(ar.body) && Distinct(ar.head) && ar.head == r.head && AdornedReady(ar)
    ensures |ar.head| == |w.prog[h.inner].rules[0].head| && HeadIsBound(r) && GoodOrder(r.body) && AllArgsDistinct(r.body)
  {
    hide AllArgsDistinct, GoodOrder, RuleReady, KindOf, AdornBody, HeadBound, Rewritten, Distinct, AdornedReady;
    AdornDistinct(r, HeadBound(r.head, h.MagicAdornment()), Rewritten(w.strata, w.disabled, i));
    ReadyBinds(r, w.prog.Keys);
  }

  lemma ReadyBinds(r: InlineRule<Symbol>, names: set<Symbol>)
    requires RuleReady(r, names)
    ensures HeadIsBound(r)
  {
    hide BodyBinds, WellOrdered;
  }

  /** A rule of a rewritten stratum, and the adorned rule it was emitted for. */
  ghost predicate EmittedFor(w: Rewriting, i: nat, s: MagicSymbol, r: InlineRule<MagicSymbol>, h: MagicSymbol, idx: nat) {
    HasAdorned(w, i, h, idx) && Emitted(s, r) in RewriteRule(h, idx, w.ads[i][h].rules[idx])
  }

  lemma Emission(w: Rewriting, i: nat, s: MagicSymbol, r: InlineRule<MagicSymbol>) returns (h: MagicSymbol, idx: nat)
    requires Done(w) && i < |w.strata| && HasRule(w.outs[i], s, r)
    ensures EmittedFor(w, i, s, r, h, idx)
  {
    hide Normalised, Accepted, IsAdorned, Called, NoEmptyRules, RewriteRule;
    assert StratumDone(w.strata, w.disabled, i, w.ads[i], w.outs[i]);
    assert EmittedBySome(w.ads[i], Emitted(s, r));
    h, idx :| Emits(w.ads[i], Emitted(s, r), h, idx);
  }

  lemma EmittedIsRule(w: Rewriting, i: nat, e: Emitted, h: MagicSymbol, idx: nat)
    requires Done(w) && i < |w.strata| && EmittedFor(w, i, e.key, e.rule, h, idx)
    ensures HasRule(w.outs[i], e.key, e.rule)
  {
    hide Normalised, Accepted, IsAdorned, Called, NoEmptyRules, RewriteRule;
    assert StratumDone(w.strata, w.disabled, i, w.ads[i], w.outs[i]);
    assert Emits(w.ads[i], Emitted(e.key, e.rule), h, idx);
    assert EmittedBySome(w.ads[i], Emitted(e.key, e.rule));
  }

  // ----- rewritten rules are in order -----

  ghost predicate WellShaped<S(!new)>(r: InlineRule<S>) {
    WellOrdered(r.body) && AllArgsDistinct(r.body) && HeadIsBound(r)
  }

  lemma OneShaped(head: seq<Symbol>, app: Atom<MagicSymbol>)
    requires app.Rule? && Distinct(app.args) && forall x :: x in head ==> x in app.args
    ensures WellShaped(PlainRule(head, [app]))
  {
    OneAtomOrdered(app);
    BodyBindsOne(app);
    AppBinds(app);
    hide BodyBinds, WellOrdered;
    assert forall i :: 0 <= i < |head| ==> head[i] in head;
  }

  lemma PendingShaped(h: MagicSymbol, idx: nat, r: InlineRule<MagicSymbol>, k: nat, head: seq<Symbol>, aggr: seq<Option<Aggregation>>)
    requires k <= |r.body| && AdornedReady(r) && AllArgsDistinct(r.body) && Distinct(r.head)
    requires forall i :: 0 <= i < |head| ==> head[i] in SeenSet(h, idx, r, k)
    ensures WellShaped(InlineRule(head, aggr, RewriteBody(h, idx, r, k).atoms))
  {
    hide RewriteBody, BodyBinds, WellOrdered, AdornedReady, AllArgsDistinct, Distinct, SeenSet, HeadBound;
    AtomsWellOrdered(h, idx, r, k);
    PendingDistinct(h, idx, r, k);
    SeenIs(h, idx, r, k);
  }

  lemma HeadSeen(h: MagicSymbol, idx: nat, r: InlineRule<MagicSymbol>)
    requires AdornedReady(r)
    ensures forall i :: 0 <= i < |r.head| ==> r.head[i] in SeenSet(h, idx, r, |r.body|)
  {
    hide BodyBinds, WellOrdered, HeadBound, RewriteBody;
    SeenIs(h, idx, r, |r.body|);
    assert r.body[..|r.body|] == r.body;
  }

  lemma SeenIsSet(h: MagicSymbol, idx: nat, r: InlineRule<MagicSymbol>, k: nat)
    requires k <= |r.body|
    ensures forall x :: x in SeenSet(h, idx, r, k) <==> x in RewriteBody(h, idx, r, k).seen
  {
    hide RewriteBody;
  }

  lemma RuleShaped(w: Rewriting, i: nat, s: MagicSymbol, r: InlineRule<MagicSymbol>)
    requires Done(w) && i < |w.strata| && HasRule(w.outs[i], s, r)
    ensures WellShaped(r)
  {
    hide Done, RewriteBody, RewriteRule, WellShaped, Distinct, AdornedReady, AllArgsDistinct, Select, SeenSet, ComesFrom, IsBoundCall, GoodOrder, HeadIsBound;
    var h, idx := Emission(w, i, s, r);
    var ar, orig := Origin(w, i, h, idx);
    AdornedShape(w, i, h, idx, ar, orig);
    SameRule(w, i, h, idx, ar, orig);
    RuleEmits(h, idx, ar, Emitted(s, r));
    if Emitted(s, r) == FinalRule(h, idx, ar) {
      HeadSeen(h, idx, ar);
      PendingShaped(h, idx, ar, |ar.body|, ar.head, ar.aggr);
    } else if h.HasBoundAdornment() && Emitted(s, r) == StartRule(h, idx, ar) {
      SelectDistinct(ar.head, h.MagicAdornment());
      var args := Select(ar.head, h.MagicAdornment());
      OneShaped(args, Rule(InputName(h), args));
    } else {
      var k: nat :| k < |ar.body| && IsCallRule(h, idx, ar, k, Emitted(s, r));
      var st := RewriteBody(h, idx, ar, k);
      SeenIsSet(h, idx, ar, k);
      if Emitted(s, r) == SupRule(h, idx, ar, k) {
        PendingShaped(h, idx, ar, k, r.head, r.aggr);
      } else {
        SeenDistinct(h, idx, ar, k);
        CallSeen(w, i, h, idx, k);
        OneShaped(r.head, Rule(SupName(h, idx, st.sups), st.seen));
      }
    }
  }

  lemma SameRule(w: Rewriting, i: nat, h: MagicSymbol, idx: nat, ar: InlineRule<MagicSymbol>, r: InlineRule<Symbol>)
    requires ComesFrom(w, i, h, idx, ar, r)
    ensures HasAdorned(w, i, h, idx) && ar == w.ads[i][h].rules[idx]
  {
  }

  lemma CallSeen(w: Rewriting, i: nat, h: MagicSymbol, idx: nat, k: nat)
    requires Done(w) && HasAdorned(w, i, h, idx) && k < |w.ads[i][h].rules[idx].body| && IsBoundCall(w.ads[i][h].rules[idx].body[k])
    ensures var r := w.ads[i][h].rules[idx];
            forall x :: x in Select(r.body[k].args, r.body[k].name.MagicAdornment()) ==> x in SeenSet(h, idx, r, k)
  {
    hide Normalised, Accepted, RuleReady, Rewritten, IsAdorned, SeenSet, Select, IsBoundCall, IsRewritten, Called;
    DoneAt(w, i);
    StageReadyFor(w.prog, w.strata, w.lifetimes, w.disabled, i, w.ads[i], w.outs[i]);
    var none: DB<Symbol> := iset{};
    assert Ready(w.strata[i], Rewritten(w.strata, w.disabled, i), none);
    CallArgsSeen(w.strata[i], Rewritten(w.strata, w.disabled, i), none, w.ads[i], h, idx, k);
  }

  // ----- shared variables -----

  /** What a pending body shares, the body shares. */
  lemma PendingShares(h: MagicSymbol, idx: nat, r: InlineRule<MagicSymbol>, k: nat)
    requires k <= |r.body| && AdornedReady(r) && SharesSome(RewriteBody(h, idx, r, k).atoms)
    ensures SharesSome(r.body)
  {
    hide RewriteBody, BodyBinds, AdornedReady, OrderedIn;
    var atoms := RewriteBody(h, idx, r, k).atoms;
    var i: nat, j: nat, s :| SharesUnbound(atoms, i, j, s);
    PendingFrom(h, idx, r, k, i);
    PendingFrom(h, idx, r, k, j);
    AtomsOrdered(h, idx, r, k);
    OrderedNegates(atoms, BodyBinds(r.body), i, s);
    BodyBindsPrefix(atoms, i);
    assert SharesUnbound(r.body, k - (|atoms| - i), k - (|atoms| - j), s);
  }

  lemma OrderedNegates(atoms: seq<Atom<MagicSymbol>>, all: set<Symbol>, i: nat, s: Symbol)
    requires OrderedIn(atoms, all) && i < |atoms| && s in Negates(atoms[i])
    ensures s in all ==> s in BodyBinds(atoms[..i])
  {
    assert s in all ==> s in Negates(atoms[i]) * all;
  }

  /** What the body shares, with negated atoms that are bound in part at its end, the final rule shares. */
  lemma FinalShares(h: MagicSymbol, idx: nat, r: InlineRule<MagicSymbol>)
    requires AdornedReady(r) && SharesSome(r.body)
    requires forall i, s, k :: 0 <= i <= k < |r.body| && s in Negates(r.body[i]) && s !in BodyBinds(r.body) ==> !IsBoundCall(r.body[k])
    ensures SharesSome(RewriteBody(h, idx, r, |r.body|).atoms)
  {
    hide RewriteBody, BodyBinds, AdornedReady, IsBoundCall;
    var n, atoms := |r.body|, RewriteBody(h, idx, r, |r.body|).atoms;
    var i: nat, j: nat, s :| SharesUnbound(r.body, i, j, s);
    assert s in Negates(r.body[i]);
    StaysPending(h, idx, r, n, i);
    StaysPending(h, idx, r, n, j);
    SeenIs(h, idx, r, n);
    SeenInBody(h, idx, r, n);
    assert SharesUnbound(atoms, |atoms| - (n - i), |atoms| - (n - j), s);
  }

  lemma NoCallsAfter(r: InlineRule<Symbol>, seen: set<Symbol>, rw: set<Symbol>, i: nat, s: Symbol, k: nat)
    requires GoodOrder(r.body) && i <= k < |r.body|
    requires var body' := AdornRule(r, seen, rw).body; s in Negates(body'[i]) && s !in BodyBinds(body')
    ensures !IsBoundCall(AdornRule(r, seen, rw).body[k])
  {
    hide BodyBinds, Negates, Binds;
    var body' := AdornRule(r, seen, rw).body;
    forall l | 0 <= l < |body'|
      ensures Binds(body'[l]) == Binds(r.body[l]) && Negates(body'[l]) == Negates(r.body[l])
    {
      AdornSame(r.body[l], SeenBefore(r.body, seen, rw, l), rw);
    }
    SameBinds(r.body, body');
    BodyBindsPrefix(r.body, i);
    assert !(Negates(r.body[i]) <= BodyBinds(r.body[..i]));
    assert r.body[k].NegatedRule? || r.body[k].NegatedRelation?;
  }

  // ----- heads that the body does not bind -----

  /** The final rule of an adorned rule has its head bound exactly if the body binds it, but for what the call binds. */
  lemma FinalBindsIff(h: MagicSymbol, idx: nat, r: InlineRule<MagicSymbol>)
    ensures HeadIsBound(FinalRule(h, idx, r).rule) <==>
            forall i :: 0 <= i < |r.head| ==> r.head[i] in BodyBinds(r.body) || r.head[i] in HeadBound(r.head, h.MagicAdornment())
  {
    hide RewriteBody, BodyBinds, HeadBound;
    SeenIs(h, idx, r, |r.body|);
    assert r.body[..|r.body|] == r.body;
  }

  /** `p[x, y] := *a[x]`, called with both columns bound: the rule does not bind its head, and what the rewrite makes of it does. */
  lemma UnboundHeadAccepted()
    ensures var r := InlineRule(["x", "y"], [None, None], [Relation("a", ["x"], None)]);
            !HeadIsBound(r) && HeadIsBound(FinalRule(Magic("p", [true, true]), 0, AdornRule(r, {"x", "y"}, {"p"})).rule)
  {
    var a: Atom<Symbol> := Relation("a", ["x"], None);
    var r := InlineRule(["x", "y"], [None, None], [a]);
    var h := Magic("p", [true, true]);
    assert BodyBinds(r.body) == {"x"} by {
      BodyBindsOne(a);
      assert a.args == ["x"];
    }
    assert r.head[1] == "y";
    var ar := AdornRule(r, {"x", "y"}, {"p"});
    assert Select(["x", "y"], [true, true]) == ["x"] + Select(["x", "y"][1..], [true, true][1..]) && ["x", "y"][1..] == ["y"] && [true, true][1..] == [true];
    assert Select(["y"], [true]) == ["y"] + Select(["y"][1..], [true][1..]) && ["y"][1..] == [];
    assert Select(["x", "y"], [true, true]) == ["x", "y"];
    FinalBindsIff(h, 0, ar);
  }
}
