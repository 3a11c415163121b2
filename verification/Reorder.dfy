/** Putting the atoms of a rule body in an order in which they can be evaluated (query/reorder.rs). */
module Reorder {
  import opened Wrappers
  import opened Exprs
  import opened Program
  import Bytecode

  type Body = seq<Atom<Symbol>>

  /** Atoms gathered so far, atoms put off, and the variables recorded as bound. */
  datatype Progress = Progress(collected: Body, pending: Body, seen: set<Symbol>)

  /** The expressions of an atom have known functions only. */
  predicate ExprFine(a: Atom<Symbol>) {
    (a.Predicate? || a.Unification? ==> Bytecode.Compilable(a.expr))
  }

  // ----- the first round -----

  /** What the first round takes as it comes. */
  predicate TakenAtOnce(a: Atom<Symbol>, seen: set<Symbol>) {
    match a
    case Rule(_, _) => true
    case Relation(_, _, _) => true
    case Unification(_, e, _) => e.Const? || Vars(e) <= seen
    case Search(_, q, _) => q in seen
    case _ => false
  }

  function FirstStep(p: Progress, a: Atom<Symbol>): Progress {
    if TakenAtOnce(a, p.seen) then Progress(p.collected + [a], p.pending, p.seen + Binds(a))
    else Progress(p.collected, p.pending + [a], p.seen)
  }

  function FirstRound(body: Body, n: nat): Progress
    requires n <= |body|
  {
    if n == 0 then Progress([], [], {}) else FirstStep(FirstRound(body, n - 1), body[n - 1])
  }

  // ----- the second round -----

  /** What can be put in once its variables are recorded. */
  predicate FitsNow(a: Atom<Symbol>, seen: set<Symbol>) {
    match a
    case NegatedRule(_, args) => forall i :: 0 <= i < |args| ==> args[i] in seen
    case NegatedRelation(_, args, _) => forall i :: 0 <= i < |args| ==> args[i] in seen
    case Search(_, q, _) => q in seen
    case Predicate(e) => Vars(e) <= seen
    case Unification(_, e, _) => Vars(e) <= seen
    case _ => false
  }

  /** A unification put in here does not record its variable. */
  function FitStep(p: Progress, a: Atom<Symbol>): Progress {
    if FitsNow(a, p.seen) then Progress(p.collected + [a], p.pending, if a.Search? then p.seen + Binds(a) else p.seen)
    else Progress(p.collected, p.pending + [a], p.seen)
  }

  function Fit(p: Progress, waiting: Body, n: nat): Progress
    requires n <= |waiting|
  {
    if n == 0 then p else FitStep(Fit(p, waiting, n - 1), waiting[n - 1])
  }

  function SecondRound(first: Progress, n: nat): Progress
    requires n <= |first.collected|
  {
    if n == 0 then Progress([], first.pending, {})
    else
      var p := SecondRound(first, n - 1);
      var a := first.collected[n - 1];
      Fit(Progress(p.collected + [a], [], p.seen + Binds(a)), p.pending, |p.pending|)
  }

  // ----- the end -----

  /** A negated atom that is bound in part may come last. */
  predicate MayComeLast(a: Atom<Symbol>, seen: set<Symbol>) {
    match a
    case NegatedRule(_, args) => exists i :: 0 <= i < |args| && args[i] in seen
    case NegatedRelation(_, args, _) => exists i :: 0 <= i < |args| && args[i] in seen
    case _ => false
  }

  function Outcome(body: Body): Progress {
    var first := FirstRound(body, |body|);
    SecondRound(first, |first.collected|)
  }

  ghost predicate Succeeds(body: Body) {
    && (forall i :: 0 <= i < |body| ==> ExprFine(body[i]))
    && var p := Outcome(body);
       forall i :: 0 <= i < |p.pending| ==> MayComeLast(p.pending[i], p.seen)
  }

  /** The reordered body. */
  function Reordered(body: Body): Body {
    Outcome(body).collected + Outcome(body).pending
  }

  /** The two rounds as they run. */
  method ConvertToWellOrdered(body: Body) returns (r: Result<Body>)
    ensures r.Success? <==> Succeeds(body)
    ensures r.Success? ==> r.value == Reordered(body)
  {
    hide Binds, Vars, Bytecode.Compilable;
    var first := Progress([], [], {});
    for i := 0 to |body|
      invariant first == FirstRound(body, i)
      invariant forall k :: 0 <= k < i && body[k].Unification? ==> ExprFine(body[k])
    {
      var a := body[i];
      if a.Unification? && !Bytecode.Compilable(a.expr) {
        assert !ExprFine(body[i]);
        return Failure;
      }
      first := FirstStep(first, a);
    }
    var p := Progress([], first.pending, {});
    var fine := true;
    for i := 0 to |first.collected|
      invariant p == SecondRound(first, i)
    {
      var waiting := p.pending;
      var a := first.collected[i];
      p := Progress(p.collected + [a], [], p.seen + Binds(a));
      ghost var start := p;
      for k := 0 to |waiting|
        invariant p == Fit(start, waiting, k)
      {
        p := FitStep(p, waiting[k]);
      }
    }
    assert p == Outcome(body);
    for i := 0 to |body|
      invariant fine <==> forall k :: 0 <= k < i ==> ExprFine(body[k])
    {
      fine := fine && ExprFine(body[i]);
    }
    if !fine {
      return Failure;
    }
    var collected := p.collected;
    for i := 0 to |p.pending|
      invariant collected == p.collected + p.pending[..i]
      invariant forall k :: 0 <= k < i ==> MayComeLast(p.pending[k], p.seen)
    {
      if !MayComeLast(p.pending[i], p.seen) {
        return Failure;
      }
      collected := collected + [p.pending[i]];
    }
    r := Success(collected);
  }

  // ----- a permutation in a good order -----

  ghost function Held(p: Progress): multiset<Atom<Symbol>> {
    multiset(p.collected) + multiset(p.pending)
  }

  lemma StepsKeep(p: Progress, a: Atom<Symbol>)
    ensures Held(FirstStep(p, a)) == Held(p) + multiset{a}
    ensures Held(FitStep(p, a)) == Held(p) + multiset{a}
  {
    hide TakenAtOnce, FitsNow, Binds;
  }

  lemma TakeStep(s: Body, n: nat)
    requires 0 < n <= |s|
    ensures multiset(s[..n]) == multiset(s[..n - 1]) + multiset{s[n - 1]}
  {
    assert s[..n] == s[..n - 1] + [s[n - 1]];
  }

  lemma {:induction false} FirstKeeps(body: Body, n: nat)
    requires n <= |body|
    ensures Held(FirstRound(body, n)) == multiset(body[..n])
    decreases n
  {
    hide FirstStep;
    if n == 0 {
      assert body[..0] == [];
    } else {
      FirstKeeps(body, n - 1);
      StepsKeep(FirstRound(body, n - 1), body[n - 1]);
      TakeStep(body, n);
    }
  }

  lemma {:induction false} FitKeeps(p: Progress, waiting: Body, n: nat)
    requires n <= |waiting|
    ensures Held(Fit(p, waiting, n)) == Held(p) + multiset(waiting[..n])
    decreases n
  {
    hide FitStep, Held;
    if n == 0 {
      assert waiting[..0] == [];
    } else {
      FitKeeps(p, waiting, n - 1);
      StepsKeep(Fit(p, waiting, n - 1), waiting[n - 1]);
      TakeStep(waiting, n);
    }
  }

  lemma {:induction false} SecondKeeps(first: Progress, n: nat)
    requires n <= |first.collected|
    ensures Held(SecondRound(first, n)) == multiset(first.collected[..n]) + multiset(first.pending)
    decreases n
  {
    hide Fit, Binds, Held;
    if n == 0 {
      assert first.collected[..0] == [];
      StartHeld(first.pending);
    } else {
      SecondKeeps(first, n - 1);
      var p, a := SecondRound(first, n - 1), first.collected[n - 1];
      var q := Progress(p.collected + [a], [], p.seen + Binds(a));
      TakeStep(first.collected, n);
      FitKeeps(q, p.pending, |p.pending|);
      assert p.pending[..|p.pending|] == p.pending;
      Requeued(p, a, q);
    }
  }

  lemma StartHeld(pending: Body)
    ensures Held(Progress([], pending, {})) == multiset(pending)
  {
  }

  lemma Requeued(p: Progress, a: Atom<Symbol>, q: Progress)
    requires q.collected == p.collected + [a] && q.pending == []
    ensures Held(q) + multiset(p.pending) == Held(p) + multiset{a}
  {
  }

  /** No atom is lost, made up or repeated. */
  lemma ReorderPermutes(body: Body)
    ensures multiset(Reordered(body)) == multiset(body)
  {
    hide FirstRound, SecondRound;
    var first := FirstRound(body, |body|);
    FirstKeeps(body, |body|);
    SecondKeeps(first, |first.collected|);
    assert body[..|body|] == body && first.collected[..|first.collected|] == first.collected;
  }

  /** Every atom finds its variables bound before it, and negated ones all of theirs. */
  ghost predicate InOrder(atoms: Body) {
    forall i :: 0 <= i < |atoms| ==> Uses(atoms[i]) + Negates(atoms[i]) <= BodyBinds(atoms[..i])
  }

  lemma InOrderAppend(atoms: Body, a: Atom<Symbol>)
    requires InOrder(atoms) && Uses(a) + Negates(a) <= BodyBinds(atoms)
    ensures InOrder(atoms + [a])
  {
    hide Uses, Negates, BodyBinds;
    forall i | 0 <= i < |atoms + [a]|
      ensures Uses((atoms + [a])[i]) + Negates((atoms + [a])[i]) <= BodyBinds((atoms + [a])[..i])
    {
      if i < |atoms| {
        assert (atoms + [a])[..i] == atoms[..i];
      } else {
        assert (atoms + [a])[..i] == atoms;
      }
    }
  }

  /** The first round puts off what binds nothing by itself, and records what it gathers. */
  ghost predicate FirstGood(p: Progress) {
    && InOrder(p.collected) && p.seen == BodyBinds(p.collected)
    && (forall i :: 0 <= i < |p.collected| ==> Negates(p.collected[i]) == {})
  }

  lemma TakenIsGood(a: Atom<Symbol>, seen: set<Symbol>)
    requires TakenAtOnce(a, seen)
    ensures Uses(a) <= seen && Negates(a) == {}
  {
  }

  lemma {:induction false} FirstOrdered(body: Body, n: nat)
    requires n <= |body|
    ensures FirstGood(FirstRound(body, n))
    decreases n
  {
    hide Binds, BodyBinds, Uses, Negates, TakenAtOnce, InOrder;
    if n == 0 {
      StartInOrder();
    } else {
      FirstOrdered(body, n - 1);
      var p, a := FirstRound(body, n - 1), body[n - 1];
      if TakenAtOnce(a, p.seen) {
        TakenIsGood(a, p.seen);
        InOrderAppend(p.collected, a);
        BodyBindsAppend(p.collected, a);
      }
    }
  }

  lemma StartInOrder()
    ensures InOrder([]) && BodyBinds<Symbol>([]) == {}
  {
    BodyBindsNone<Symbol>([]);
  }

  ghost predicate SecondGood(p: Progress) {
    InOrder(p.collected) && p.seen <= BodyBinds(p.collected)
  }

  lemma FitsIsGood(a: Atom<Symbol>, seen: set<Symbol>)
    requires FitsNow(a, seen)
    ensures Uses(a) + Negates(a) <= seen
  {
  }

  lemma {:induction false} FitOrdered(p: Progress, waiting: Body, n: nat)
    requires n <= |waiting| && SecondGood(p)
    ensures SecondGood(Fit(p, waiting, n)) && p.seen <= Fit(p, waiting, n).seen
    decreases n
  {
    hide Binds, BodyBinds, Uses, Negates, FitsNow, InOrder;
    if n > 0 {
      FitOrdered(p, waiting, n - 1);
      var q, a := Fit(p, waiting, n - 1), waiting[n - 1];
      if FitsNow(a, q.seen) {
        FitsIsGood(a, q.seen);
        InOrderAppend(q.collected, a);
        BodyBindsAppend(q.collected, a);
      }
    }
  }

  lemma {:induction false} SecondOrdered(first: Progress, n: nat)
    requires n <= |first.collected| && FirstGood(first)
    ensures SecondGood(SecondRound(first, n)) && BodyBinds(first.collected[..n]) <= SecondRound(first, n).seen
    decreases n
  {
    hide Binds, BodyBinds, Uses, Negates, InOrder;
    if n == 0 {
      assert first.collected[..0] == [];
      StartInOrder();
    } else {
      SecondOrdered(first, n - 1);
      var p, a := SecondRound(first, n - 1), first.collected[n - 1];
      assert Uses(a) + Negates(a) <= BodyBinds(first.collected[..n - 1]) by { InOrderAt(first.collected, n - 1); }
      InOrderAppend(p.collected, a);
      BodyBindsAppend(p.collected, a);
      BodyBindsStep(first.collected, n - 1);
      FitOrdered(Progress(p.collected + [a], [], p.seen + Binds(a)), p.pending, |p.pending|);
    }
  }

  lemma InOrderAt(atoms: Body, i: nat)
    requires InOrder(atoms) && i < |atoms|
    ensures Uses(atoms[i]) + Negates(atoms[i]) <= BodyBinds(atoms[..i])
  {
  }

  /** Where atoms stand in a reordered body: what must be bound is bound before, and negated atoms
      that are bound only in part come after all that binds. */
  ghost predicate GoodOrder(body: Body) {
    forall i :: 0 <= i < |body| ==>
      && Uses(body[i]) <= BodyBinds(body[..i])
      && (Negates(body[i]) <= BodyBinds(body[..i]) ||
          (&& Negates(body[i]) * BodyBinds(body[..i]) != {}
           && forall k :: i <= k < |body| ==> body[k].NegatedRule? || body[k].NegatedRelation?))
  }

  lemma LastBindsNothing(atoms: Body, rest: Body)
    requires forall i :: 0 <= i < |rest| ==> rest[i].NegatedRule? || rest[i].NegatedRelation?
    ensures BodyBinds(atoms + rest) == BodyBinds(atoms)
  {
    var all := atoms + rest;
    assert forall i :: 0 <= i < |atoms| ==> all[i] == atoms[i];
    assert forall i :: 0 <= i < |rest| ==> all[|atoms| + i] == rest[i];
  }

  lemma MayComeLastIs(a: Atom<Symbol>, seen: set<Symbol>)
    requires MayComeLast(a, seen)
    ensures Uses(a) == {} && Negates(a) * seen != {} && (a.NegatedRule? || a.NegatedRelation?)
  {
    var i :| 0 <= i < |a.args| && a.args[i] in seen;
    assert a.args[i] in Negates(a) * seen;
  }

  /** When reordering succeeds, every atom can be evaluated where it stands. */
  lemma ReorderedIsOrdered(body: Body)
    requires Succeeds(body)
    ensures GoodOrder(Reordered(body))
  {
    hide FirstRound, SecondRound, BodyBinds, Uses, Negates, MayComeLast, ExprFine;
    var first := FirstRound(body, |body|);
    FirstOrdered(body, |body|);
    SecondOrdered(first, |first.collected|);
    var p := Outcome(body);
    var all := Reordered(body);
    forall i | 0 <= i < |p.pending|
      ensures Uses(p.pending[i]) == {} && Negates(p.pending[i]) * p.seen != {} && (p.pending[i].NegatedRule? || p.pending[i].NegatedRelation?)
    {
      MayComeLastIs(p.pending[i], p.seen);
    }
    forall i | 0 <= i < |all|
      ensures Uses(all[i]) <= BodyBinds(all[..i])
      ensures Negates(all[i]) <= BodyBinds(all[..i]) ||
        (Negates(all[i]) * BodyBinds(all[..i]) != {} && forall k :: i <= k < |all| ==> all[k].NegatedRule? || all[k].NegatedRelation?)
    {
      if i < |p.collected| {
        assert all[..i] == p.collected[..i];
        InOrderAt(p.collected, i);
      } else {
        var j := i - |p.collected|;
        assert all[i] == p.pending[j] && all[..i] == p.collected + p.pending[..j];
        LastBindsNothing(p.collected, p.pending[..j]);
        assert forall k :: i <= k < |all| ==> all[k] == p.pending[k - |p.collected|];
      }
    }
  }

  /** Such an order is one that evaluation can follow from left to right. */
  lemma GoodIsWellOrdered(body: Body)
    requires GoodOrder(body)
    ensures WellOrdered(body)
  {
    hide BodyBinds, Uses, Negates;
    forall i | 0 <= i < |body|
      ensures Uses(body[i]) <= BodyBinds(body[..i]) && Negates(body[i]) * BodyBinds(body) <= BodyBinds(body[..i])
    {
      if !(Negates(body[i]) <= BodyBinds(body[..i])) {
        LastBindsNothing(body[..i], body[i..]);
        assert body[..i] + body[i..] == body;
      }
    }
  }

  // ----- when it succeeds -----

  /** A body that is in order as it stands, with every negated atom bound at least in part. */
  ghost predicate AlreadyOrdered(body: Body) {
    && (forall i :: 0 <= i < |body| ==> ExprFine(body[i]) && Uses(body[i]) <= BodyBinds(body[..i]))
    && (forall i :: 0 <= i < |body| && (body[i].NegatedRule? || body[i].NegatedRelation?) ==> Negates(body[i]) * BodyBinds(body) != {})
  }

  /** Whatever binds is taken in the first round. */
  lemma {:induction false} FirstTakesBinders(body: Body, n: nat)
    requires n <= |body| && AlreadyOrdered(body)
    ensures var p := FirstRound(body, n);
            p.seen == BodyBinds(body[..n]) && forall i :: 0 <= i < |p.pending| ==> p.pending[i] in body && !(p.pending[i].Unification? || p.pending[i].Search? || p.pending[i].Rule? || p.pending[i].Relation?)
    decreases n
  {
    hide BodyBinds, ExprFine, Vars;
    if n == 0 {
      BodyBindsNone(body[..0]);
    } else {
      FirstTakesBinders(body, n - 1);
      BodyBindsStep(body, n - 1);
      var a := body[n - 1];
      assert Uses(a) <= BodyBinds(body[..n - 1]);
    }
  }

  /** A predicate waits no longer than until its variables are recorded. */
  lemma {:induction false} FitPlaces(p: Progress, waiting: Body, n: nat)
    requires n <= |waiting|
    ensures var q := Fit(p, waiting, n);
            p.seen <= q.seen && forall a :: a in q.pending ==> a in p.pending || (a in waiting && !FitsNow(a, p.seen))
    decreases n
  {
    hide FitsNow, Binds;
    if n > 0 {
      FitPlaces(p, waiting, n - 1);
      var q, a := Fit(p, waiting, n - 1), waiting[n - 1];
      if !FitsNow(a, q.seen) && FitsNow(a, p.seen) {
        FitsGrow(a, p.seen, q.seen);
      }
    }
  }

  lemma FitsGrow(a: Atom<Symbol>, s: set<Symbol>, t: set<Symbol>)
    requires FitsNow(a, s) && s <= t
    ensures FitsNow(a, t)
  {
  }

  lemma {:induction false} SecondSees(first: Progress, n: nat)
    requires n <= |first.collected|
    ensures var p := SecondRound(first, n);
            && BodyBinds(first.collected[..n]) <= p.seen
            && (forall a :: a in p.pending ==> a in first.pending && (n > 0 ==> !FitsNow(a, BodyBinds(first.collected[..n]))))
    decreases n
  {
    hide FitsNow, Binds, BodyBinds;
    if n == 0 {
      BodyBindsNone(first.collected[..0]);
    } else {
      SecondSees(first, n - 1);
      BodyBindsStep(first.collected, n - 1);
      var p, a := SecondRound(first, n - 1), first.collected[n - 1];
      var q := Progress(p.collected + [a], [], p.seen + Binds(a));
      FitPlaces(q, p.pending, |p.pending|);
      var r := SecondRound(first, n);
      forall x | x in r.pending
        ensures x in first.pending && !FitsNow(x, BodyBinds(first.collected[..n]))
      {
        if FitsNow(x, BodyBinds(first.collected[..n])) {
          FitsGrow(x, BodyBinds(first.collected[..n]), q.seen);
        }
      }
    }
  }

  /** A body already in order is accepted. */
  lemma OrderedSucceeds(body: Body)
    requires AlreadyOrdered(body) && exists i :: 0 <= i < |body| && Binds(body[i]) != {}
    ensures Succeeds(body)
  {
    hide FirstRound, SecondRound, BodyBinds, ExprFine, Vars, Binds;
    var first := FirstRound(body, |body|);
    FirstTakesBinders(body, |body|);
    FirstOrdered(body, |body|);
    assert body[..|body|] == body;
    var n := |first.collected|;
    SecondSees(first, n);
    assert first.collected[..n] == first.collected;
    assert n > 0 by { SomeBinder(body, first); }
    var p := Outcome(body);
    forall k | 0 <= k < |p.pending|
      ensures MayComeLast(p.pending[k], p.seen)
    {
      var a := p.pending[k];
      assert a in first.pending;
      var j :| 0 <= j < |first.pending| && first.pending[j] == a;
      var i :| 0 <= i < |body| && body[i] == a;
      BodyBindsPrefix(body, i);
      if a.NegatedRule? || a.NegatedRelation? {
        LastHasBound(a, BodyBinds(body), p.seen);
      }
    }
  }

  lemma SomeBinder(body: Body, first: Progress)
    requires FirstGood(first) && first.seen == BodyBinds(body) && exists i :: 0 <= i < |body| && Binds(body[i]) != {}
    ensures |first.collected| > 0
  {
    var i :| 0 <= i < |body| && Binds(body[i]) != {};
    var s :| s in Binds(body[i]);
    assert s in BodyBinds(body);
  }

  lemma LastHasBound(a: Atom<Symbol>, all: set<Symbol>, seen: set<Symbol>)
    requires (a.NegatedRule? || a.NegatedRelation?) && Negates(a) * all != {} && all <= seen
    ensures MayComeLast(a, seen)
  {
    var s :| s in Negates(a) * all;
    var i :| 0 <= i < |a.args| && a.args[i] == s;
  }

  // ----- exactly when it succeeds -----

  /** What the searches among the atoms would bind. */
  ghost function SearchBinds(atoms: Body): set<Symbol> {
    set i, s | 0 <= i < |atoms| && atoms[i].Search? && s in Binds(atoms[i]) :: s
  }

  lemma LastGrows(a: Atom<Symbol>, s: set<Symbol>, t: set<Symbol>)
    requires MayComeLast(a, s) && s <= t
    ensures MayComeLast(a, t)
  {
    var i :| 0 <= i < |a.args| && a.args[i] in s;
    assert a.args[i] in t;
  }

  /** Nothing is recorded beyond `top`, and whatever is put in fits it. */
  lemma {:induction false} FitBounded(p: Progress, waiting: Body, n: nat, top: set<Symbol>)
    requires n <= |waiting| && p.seen <= top && SearchBinds(waiting) <= top
    ensures var q := Fit(p, waiting, n);
            q.seen <= top && (forall a :: a in p.pending ==> a in q.pending) && forall a :: a in waiting[..n] ==> a in q.pending || FitsNow(a, top)
    decreases n
  {
    hide FitsNow, Binds;
    if n > 0 {
      FitBounded(p, waiting, n - 1, top);
      var q, a := Fit(p, waiting, n - 1), waiting[n - 1];
      assert waiting[..n] == waiting[..n - 1] + [a];
      assert a.Search? ==> forall s :: s in Binds(a) ==> s in SearchBinds(waiting);
      if FitsNow(a, q.seen) {
        FitsGrow(a, q.seen, top);
      }
    }
  }

  lemma SearchesFewer(a: Body, b: Body)
    requires forall x :: x in a ==> x in b
    ensures SearchBinds(a) <= SearchBinds(b)
  {
    hide Binds;
    forall i, s | 0 <= i < |a| && a[i].Search? && s in Binds(a[i])
      ensures s in SearchBinds(b)
    {
      assert a[i] in b;
      var j :| 0 <= j < |b| && b[j] == a[i];
    }
  }

  lemma {:induction false} SecondBounded(first: Progress, n: nat, top: set<Symbol>)
    requires n <= |first.collected| && BodyBinds(first.collected) <= top && SearchBinds(first.pending) <= top
    ensures var p := SecondRound(first, n);
            p.seen <= top && forall a :: a in first.pending ==> a in p.pending || (n > 0 && FitsNow(a, top))
    decreases n
  {
    hide FitsNow, Binds, BodyBinds, SearchBinds, Fit;
    if n > 0 {
      SecondBounded(first, n - 1, top);
      SecondSees(first, n - 1);
      var p, a := SecondRound(first, n - 1), first.collected[n - 1];
      SearchesFewer(p.pending, first.pending);
      BodyBindsStep(first.collected, n - 1);
      BodyBindsPrefix(first.collected, n);
      FitBounded(Progress(p.collected + [a], [], p.seen + Binds(a)), p.pending, |p.pending|, top);
      assert p.pending[..|p.pending|] == p.pending;
    }
  }

  /** What is put off fits what the first round records, or is negated and bound in part. */
  ghost predicate Placeable(first: Progress, seen: set<Symbol>) {
    forall a :: a in first.pending ==> (first.collected != [] && FitsNow(a, seen)) || MayComeLast(a, seen)
  }

  /** For every body, searches put off or not: it is enough that what is put off fits what the first round records, and needed
      that it fits that together with what the searches put off would bind. Between the two the order of the searches decides. */
  lemma SucceedsBetween(body: Body)
    requires forall i :: 0 <= i < |body| ==> ExprFine(body[i])
    ensures var first := FirstRound(body, |body|);
            && (Placeable(first, first.seen) ==> Succeeds(body))
            && (Succeeds(body) ==> Placeable(first, first.seen + SearchBinds(first.pending)))
  {
    hide FirstRound, SecondRound, BodyBinds, SearchBinds, ExprFine, FitsNow, MayComeLast;
    var first := FirstRound(body, |body|);
    FirstOrdered(body, |body|);
    var n, p := |first.collected|, Outcome(body);
    assert first.collected[..n] == first.collected;
    SecondSees(first, n);
    var top := first.seen + SearchBinds(first.pending);
    SecondBounded(first, n, top);
    if Placeable(first, first.seen) {
      forall i | 0 <= i < |p.pending|
        ensures MayComeLast(p.pending[i], p.seen)
      {
        assert p.pending[i] in p.pending;
        LastGrows(p.pending[i], first.seen, p.seen);
      }
    }
    if Succeeds(body) {
      forall a | a in first.pending
        ensures (first.collected != [] && FitsNow(a, top)) || MayComeLast(a, top)
      {
        if a in p.pending {
          var i :| 0 <= i < |p.pending| && p.pending[i] == a;
          LastGrows(a, p.seen, top);
        }
      }
    }
  }

  /** Where the searches put off bind nothing that is not recorded already, a body is accepted exactly if everything put off
      fits what the first round records, or is negated and bound in part. */
  lemma SucceedsIff(body: Body)
    requires SearchBinds(FirstRound(body, |body|).pending) <= FirstRound(body, |body|).seen
    ensures var first := FirstRound(body, |body|);
            Succeeds(body) <==> (forall i :: 0 <= i < |body| ==> ExprFine(body[i])) && Placeable(first, first.seen)
  {
    hide FirstRound, SearchBinds, ExprFine, Placeable;
    var first := FirstRound(body, |body|);
    if forall i :: 0 <= i < |body| ==> ExprFine(body[i]) {
      SucceedsBetween(body);
      assert first.seen + SearchBinds(first.pending) == first.seen;
    }
  }

  /** Of two searches put off, the one that binds must be written before the one that needs it: an order found for the one
      body is not found for the other. */
  lemma SearchOrderDecides()
    ensures var binding, needing, r := Search("a", "x", ["y"]), Search("b", "y", ["z"]), Relation("r", ["x"], None);
            Succeeds([binding, needing, r]) && !Succeeds([needing, binding, r])
  {
    var a: Atom<Symbol>, b: Atom<Symbol>, r: Atom<Symbol> := Search("a", "x", ["y"]), Search("b", "y", ["z"]), Relation("r", ["x"], None);
    assert Binds(a) == {"y"} && Binds(b) == {"z"} && Binds(r) == {"x"};
    OnePass(a, b, r);
    OnePass(b, a, r);
    var start := Progress([r], [], {"x"});
    assert Fit(start, [a, b], 0) == start;
    assert Fit(start, [a, b], 1) == Progress([r, a], [], {"x", "y"});
    assert Fit(start, [b, a], 0) == start;
    assert Fit(start, [b, a], 1) == Progress([r], [b], {"x"});
    assert Outcome([b, a, r]).pending[0] == b;
  }

  lemma OnePass(a: Atom<Symbol>, b: Atom<Symbol>, r: Atom<Symbol>)
    requires a.Search? && b.Search? && a.query != b.query && r == Relation("r", ["x"], None)
    ensures Outcome([a, b, r]) == Fit(Progress([r], [], {"x"}), [a, b], 2)
  {
    var body := [a, b, r];
    assert FirstRound(body, 0) == Progress([], [], {});
    assert FirstRound(body, 1) == Progress([], [a], {});
    assert FirstRound(body, 2) == Progress([], [a, b], {});
    assert FirstRound(body, 3) == Progress([r], [a, b], {"x"}) by { assert Binds(r) == {"x"}; }
    var first := FirstRound(body, 3);
    assert SecondRound(first, 0) == Progress([], [a, b], {});
    assert Progress([] + [r], [], {} + Binds(r)) == Progress([r], [], {"x"});
  }

  /** `y = x` before `r[x]`, and a test of `y`: the order `r[x]`, `y = x`, test would do, and is not found. */
  ghost function LateUnification(test: Expr): Body {
    [Unification("y", Binding("x", None), false), Relation("r", ["x"], None), Predicate(test)]
  }

  lemma LateUnificationFails()
    ensures var test := Binding("y", None);
            && !Succeeds(LateUnification(test))
            && GoodOrder([Relation("r", ["x"], None), Unification("y", Binding("x", None), false), Predicate(test)])
  {
    LateUnificationRejected();
    var test := Binding("y", None);
    var body := LateUnification(test);
    var u, r, t := body[0], body[1], body[2];
    assert Vars(Binding("x", None)) == {"x"} && Vars(test) == {"y"};
    var good := [r, u, t];
    assert good[..0] == [] && good[..1] == [r] && good[..2] == [r] + [u];
    BodyBindsNone(good[..0]);
    BodyBindsOne(r);
    BodyBindsAppend([r], u);
  }

  lemma LateUnificationRejected()
    ensures !Succeeds(LateUnification(Binding("y", None)))
  {
    var test := Binding("y", None);
    var body := LateUnification(test);
    var u, r, t := body[0], body[1], body[2];
    assert Vars(Binding("x", None)) == {"x"} && Vars(test) == {"y"};
    assert FirstRound(body, 0) == Progress([], [], {});
    assert FirstRound(body, 1) == Progress([], [u], {});
    assert FirstRound(body, 2) == Progress([r], [u], {"x"}) by { assert Binds(r) == {"x"}; }
    assert FirstRound(body, 3) == Progress([r], [u, t], {"x"});
    hide Succeeds;
    assert SearchBinds([u, t]) == {};
    assert t in [u, t] && "y" in Vars(test) && !FitsNow(t, {"x"}) && !MayComeLast(t, {"x"});
    SucceedsIff(body);
  }
}
