/** Semi-naive evaluation of one stratum (query/eval.rs, runtime/temp_store.rs). */
module SemiNaive {
  import opened Wrappers
  import opened Values
  import opened Program
  import opened Datalog
  import opened BodyEval

  /** The rows of one relation: all of them, and those that were new at the last merge. */
  class EpochStore {
    var total: set<Tuple>
    var delta: set<Tuple>
    var useTotalForDelta: bool

    /** The rows added by the last merge. */
    function Delta(): set<Tuple>
      reads this
    {
      if useTotalForDelta then total else delta
    }

    ghost predicate Valid()
      reads this
    {
      delta <= total
    }

    constructor ()
      ensures Valid() && total == {} && Delta() == {}
    {
      total, delta, useTotalForDelta := {}, {}, true;
    }

    method MergeIn(rows: set<Tuple>)
      modifies this
      ensures Valid()
      ensures total == old(total) + rows
      ensures Delta() == rows - old(total)
    {
      delta := {};
      if rows == {} {
        useTotalForDelta := false;
        return;
      }
      if total == {} {
        total := rows;
        useTotalForDelta := true;
        return;
      }
      useTotalForDelta := false;
      var todo := rows;
      while todo != {}
        invariant todo <= rows
        invariant total == old(total) + (rows - todo)
        invariant delta == (rows - todo) - old(total)
        invariant !useTotalForDelta
      {
        var t :| t in todo;
        if t !in total {
          delta := delta + {t};
          total := total + {t};
        }
        todo := todo - {t};
      }
    }

    method HasDelta() returns (b: bool)
      ensures b <==> Delta() != {}
    {
      if useTotalForDelta {
        b := total != {};
      } else {
        b := delta != {};
      }
    }
  }

  type Stores<!S(==)> = map<S, EpochStore>

  /** Different relations have different stores. */
  ghost predicate Separate<S>(stores: Stores<S>) {
    forall m, n :: m in stores && n in stores && m != n ==> stores[m] != stores[n]
  }

  ghost predicate AllValid<S>(stores: Stores<S>)
    reads set n | n in stores :: stores[n]
  {
    forall n :: n in stores ==> stores[n].Valid()
  }

  function Totals<S(==)>(stores: Stores<S>): Tables<S>
    reads set n | n in stores :: stores[n]
  {
    map n | n in stores :: stores[n].total
  }

  /** Every occurrence of `d` ranges over its new rows, all other relations over all their rows. */
  function WithDelta<S(==)>(stores: Stores<S>, d: S): Tables<S>
    reads set n | n in stores :: stores[n]
  {
    map n | n in stores :: if n == d then stores[n].Delta() else stores[n].total
  }

  /** The rows that were there before the last merge. */
  ghost function Previous<S>(stores: Stores<S>): Tables<S>
    reads set n | n in stores :: stores[n]
  {
    map n | n in stores :: stores[n].total - stores[n].Delta()
  }

  // ----- which relations a rule reads, and how often -----

  datatype Multiplicity = One | Many

  function Mentions<S>(a: Atom<S>): Option<S> {
    if a.Rule? || a.NegatedRule? then Some(a.name) else None
  }

  ghost function Count<S>(body: seq<Atom<S>>, n: S): nat {
    if body == [] then 0
    else Count(body[..|body| - 1], n) + if Mentions(body[|body| - 1]) == Some(n) then 1 else 0
  }

  method ContainedRules<S(==)>(body: seq<Atom<S>>) returns (coll: map<S, Multiplicity>)
    ensures forall n :: n in coll <==> Count(body, n) > 0
    ensures forall n :: n in coll ==> (coll[n] == Many <==> Count(body, n) > 1)
  {
    coll := map[];
    for i := 0 to |body|
      invariant forall n :: n in coll <==> Count(body[..i], n) > 0
      invariant forall n :: n in coll ==> (coll[n] == Many <==> Count(body[..i], n) > 1)
    {
      assert body[..i + 1][..|body[..i + 1]| - 1] == body[..i];
      match Mentions(body[i])
      case None =>
      case Some(n) =>
        if n in coll {
          coll := coll[n := Many];
        } else {
          coll := coll[n := One];
        }
    }
    assert body[..|body|] == body;
  }

  lemma {:induction false} CountTwo<S>(body: seq<Atom<S>>, n: S, i: nat, j: nat)
    requires i < j < |body| && Mentions(body[i]) == Some(n) && Mentions(body[j]) == Some(n)
    ensures Count(body, n) > 1
    decreases |body|
  {
    var rest := body[..|body| - 1];
    if j < |body| - 1 {
      CountTwo(rest, n, i, j);
    } else {
      CountSome(rest, n, i);
    }
  }

  lemma {:induction false} CountSome<S>(body: seq<Atom<S>>, n: S, i: nat)
    requires i < |body| && Mentions(body[i]) == Some(n)
    ensures Count(body, n) > 0
    decreases |body|
  {
    if i < |body| - 1 {
      CountSome(body[..|body| - 1], n, i);
    }
  }

  lemma {:induction false} CountFinds<S>(body: seq<Atom<S>>, n: S) returns (i: nat)
    requires Count(body, n) > 0
    ensures i < |body| && Mentions(body[i]) == Some(n)
    decreases |body|
  {
    if Mentions(body[|body| - 1]) == Some(n) {
      i := |body| - 1;
    } else {
      i := CountFinds(body[..|body| - 1], n);
    }
  }

  // ----- one rule -----

  /** `delta` is part of `total`, relation by relation. */
  ghost predicate PartOf<S>(delta: Tables<S>, total: Tables<S>) {
    delta.Keys == total.Keys && forall n :: n in delta ==> delta[n] <= total[n]
  }

  ghost function Minus<S>(total: Tables<S>, delta: Tables<S>): Tables<S>
    requires delta.Keys == total.Keys
  {
    map n | n in total :: total[n] - delta[n]
  }

  ghost function Swap<S>(total: Tables<S>, delta: Tables<S>, d: S): Tables<S>
    requires delta.Keys == total.Keys
  {
    map n | n in total :: if n == d then delta[n] else total[n]
  }

  /** An atom that holds now but did not before is an application that uses a new row. */
  lemma NewAtom<S(!new)>(w: World, total: Tables<S>, delta: Tables<S>, neg: DB<S>, a: Atom<S>, env: Env)
    requires PartOf(delta, total)
    requires Holds(w, Facts(total), neg, a, env) && !Holds(w, Facts(Minus(total, delta)), neg, a, env)
    ensures a.Rule? && a.name in delta && Bound(a.args, env) && Row(a.args, env) in delta[a.name]
  {
  }

  /** Other applications do not notice that `d` ranges over its new rows only. */
  lemma OtherAtom<S(!new)>(w: World, total: Tables<S>, delta: Tables<S>, neg: DB<S>, a: Atom<S>, env: Env, d: S)
    requires PartOf(delta, total) && Holds(w, Facts(total), neg, a, env) && (a.Rule? ==> a.name != d)
    ensures Holds(w, Facts(Swap(total, delta, d)), neg, a, env)
  {
  }

  lemma DeltaYields<S(!new)>(w: World, total: Tables<S>, delta: Tables<S>, neg: DB<S>, r: InlineRule<S>, env: Env, t: Tuple) returns (d: S)
    requires PartOf(delta, total)
    requires Yields(w, Facts(total), neg, r, env, t) && !Yields(w, Facts(Minus(total, delta)), neg, r, env, t)
    ensures Count(r.body, d) > 0 && d in delta && delta[d] != {}
    ensures Count(r.body, d) == 1 ==> Yields(w, Facts(Swap(total, delta, d)), neg, r, env, t)
  {
    hide Holds, BodyBinds, Facts, Minus, Swap;
    var i :| 0 <= i < |r.body| && !Holds(w, Facts(Minus(total, delta)), neg, r.body[i], env);
    NewAtom(w, total, delta, neg, r.body[i], env);
    d := r.body[i].name;
    CountSome(r.body, d, i);
    if Count(r.body, d) == 1 {
      forall j | 0 <= j < |r.body|
        ensures Holds(w, Facts(Swap(total, delta, d)), neg, r.body[j], env)
      {
        if j == i {
          NewAtomHolds(w, total, delta, neg, r.body[i], env);
        } else {
          if r.body[j].Rule? && r.body[j].name == d {
            if i < j { CountTwo(r.body, d, i, j); } else { CountTwo(r.body, d, j, i); }
          }
          OtherAtom(w, total, delta, neg, r.body[j], env, d);
        }
      }
    }
  }

  lemma NewAtomHolds<S(!new)>(w: World, total: Tables<S>, delta: Tables<S>, neg: DB<S>, a: Atom<S>, env: Env)
    requires PartOf(delta, total)
    requires a.Rule? && a.name in delta && Bound(a.args, env) && Row(a.args, env) in delta[a.name]
    ensures Holds(w, Facts(Swap(total, delta, a.name)), neg, a, env)
  {
  }

  /** A row that a rule produces only now is found by the delta of a relation it mentions,
      unless that relation is mentioned more than once. */
  lemma DeltaRows<S(!new)>(src: Source, total: Tables<S>, delta: Tables<S>, r: InlineRule<S>, t: Tuple) returns (d: S)
    requires PartOf(delta, total) && WellOrdered(r.body) && IsPlain(r)
    requires t in RuleRows(src, total, total, r) && t !in RuleRows(src, Minus(total, delta), total, r)
    ensures Count(r.body, d) > 0 && d in delta && delta[d] != {}
    ensures Count(r.body, d) == 1 ==> t in RuleRows(src, Swap(total, delta, d), total, r)
  {
    hide WellOrdered, IsPlain, Yields, RuleRows, Minus, Swap;
    var w := WorldOf(src);
    RuleRowsIs(src, total, total, r, t);
    var env :| Yields(w, Facts(total), Facts(total), r, env, t);
    RuleRowsIs(src, Minus(total, delta), total, r, t);
    d := DeltaYields(w, total, delta, Facts(total), r, env, t);
    RuleRowsIs(src, Swap(total, delta, d), total, r, t);
  }

  lemma RowsMonotone<S(!new)>(src: Source, pos: Tables<S>, pos': Tables<S>, neg: Tables<S>, r: InlineRule<S>)
    requires WellOrdered(r.body) && IsPlain(r) && Facts(pos) <= Facts(pos')
    ensures RuleRows(src, pos, neg, r) <= RuleRows(src, pos', neg, r)
  {
    hide WellOrdered, IsPlain, RuleRows, Facts, Holds, BodyBinds;
    var w := WorldOf(src);
    forall t | t in RuleRows(src, pos, neg, r)
      ensures t in RuleRows(src, pos', neg, r)
    {
      RuleRowsIs(src, pos, neg, r, t);
      RuleRowsIs(src, pos', neg, r, t);
      var env :| Yields(w, Facts(pos), Facts(neg), r, env, t);
      forall i | 0 <= i < |r.body|
        ensures Holds(w, Facts(pos'), Facts(neg), r.body[i], env)
      {
        HoldsMonotone(w, Facts(pos), Facts(pos'), Facts(neg), r.body[i], env);
      }
      assert Yields(w, Facts(pos'), Facts(neg), r, env, t);
    }
  }

  // ----- all rules of one relation -----

  ghost predicate RulesOk<S(!new)>(rules: seq<InlineRule<S>>, known: set<S>) {
    forall i :: 0 <= i < |rules| ==>
      && WellOrdered(rules[i].body) && IsPlain(rules[i])
      && forall n :: Count(rules[i].body, n) > 0 ==> n in known
  }

  /** Some rule produces the row. */
  ghost predicate Produces<S(!new)>(src: Source, pos: Tables<S>, neg: Tables<S>, rules: seq<InlineRule<S>>, t: Tuple) {
    exists i :: 0 <= i < |rules| && t in RuleRows(src, pos, neg, rules[i])
  }

  /** The first epoch runs every rule in full. */
  method InitialRuleNonAggrEval<S(==, !new)>(src: Source, rules: seq<InlineRule<S>>, stores: Stores<S>) returns (out: set<Tuple>)
    ensures forall t :: t in out <==> Produces(src, Totals(stores), Totals(stores), rules, t)
  {
    out := {};
    var tabs := Totals(stores);
    for i := 0 to |rules|
      invariant forall t :: t in out <==> exists j :: 0 <= j < i && t in RuleRows(src, tabs, tabs, rules[j])
    {
      out := out + RuleRows(src, tabs, tabs, rules[i]);
    }
  }

  /** Whether a relation the rule reads has new rows, and whether one that it reads repeatedly has. */
  method ChangedDependencies<S(==, !new)>(contained: map<S, Multiplicity>, stores: Stores<S>) returns (changed: bool, needCompleteRun: bool)
    requires contained.Keys <= stores.Keys
    ensures changed <==> exists n :: n in contained && stores[n].Delta() != {}
    ensures needCompleteRun <==> exists n :: n in contained && contained[n] == Many && stores[n].Delta() != {}
  {
    changed, needCompleteRun := false, false;
    var todo := contained.Keys;
    while todo != {}
      invariant todo <= contained.Keys
      invariant changed <==> exists n :: n in contained.Keys - todo && stores[n].Delta() != {}
      invariant needCompleteRun <==> exists n :: n in contained.Keys - todo && contained[n] == Many && stores[n].Delta() != {}
    {
      var n :| n in todo;
      var b := stores[n].HasDelta();
      ghost var seen := contained.Keys - todo;
      todo := todo - {n};
      assert contained.Keys - todo == seen + {n};
      if b {
        changed := true;
        assert n in contained.Keys - todo;
        if contained[n] == Many {
          needCompleteRun := true;
          break;
        }
      }
    }
  }

  /** Later epochs only look for rows that use something new. */
  method IncrementalRuleNonAggrEval<S(==, !new)>(src: Source, name: S, rules: seq<InlineRule<S>>, stores: Stores<S>) returns (out: set<Tuple>)
    requires AllValid(stores) && name in stores && RulesOk(rules, stores.Keys)
    ensures forall t :: t in out ==> Produces(src, Totals(stores), Totals(stores), rules, t)
    ensures forall t :: (&& Produces(src, Totals(stores), Totals(stores), rules, t) && t !in stores[name].total
                         && !Produces(src, Previous(stores), Totals(stores), rules, t)) ==> t in out
  {
    hide RuleRows, WellOrdered, IsPlain, Count;
    out := {};
    ghost var tabs, prev := Totals(stores), Previous(stores);
    for i := 0 to |rules|
      invariant forall t :: t in out ==> exists j :: 0 <= j < i && t in RuleRows(src, tabs, tabs, rules[j])
      invariant forall t, j :: (&& 0 <= j < i && t in RuleRows(src, tabs, tabs, rules[j]) && t !in stores[name].total
                                && t !in RuleRows(src, prev, tabs, rules[j])) ==> t in out
    {
      var found := IncrementalRule(src, name, rules[i], stores);
      ghost var before := out;
      out := out + found;
      assert forall t :: t in out ==> t in before || t in RuleRows(src, tabs, tabs, rules[i]);
    }
  }

  method IncrementalRule<S(==, !new)>(src: Source, name: S, rule: InlineRule<S>, stores: Stores<S>) returns (out: set<Tuple>)
    requires AllValid(stores) && name in stores && WellOrdered(rule.body) && IsPlain(rule)
    requires forall n :: Count(rule.body, n) > 0 ==> n in stores
    ensures out <= RuleRows(src, Totals(stores), Totals(stores), rule)
    ensures forall t :: (&& t in RuleRows(src, Totals(stores), Totals(stores), rule) && t !in stores[name].total
                         && t !in RuleRows(src, Previous(stores), Totals(stores), rule)) ==> t in out
  {
    hide RuleRows, WellOrdered, IsPlain, Count, Totals, Previous;
    var contained := ContainedRules(rule.body);
    var changed, needCompleteRun := ChangedDependencies(contained, stores);
    var tabs := Totals(stores);
    out := {};
    if changed {
      if needCompleteRun {
        out := set t | t in RuleRows(src, tabs, tabs, rule) && t !in stores[name].total;
      } else {
        out := DeltaRuns(src, name, rule, contained, stores);
      }
    }
    forall t | t in RuleRows(src, tabs, tabs, rule) && t !in stores[name].total && t !in RuleRows(src, Previous(stores), tabs, rule)
      ensures t in out
    {
      var d := NewRowFound(src, stores, rule, t);
      assert d in contained;
    }
  }

  /** Runs the rule once for each relation it reads, with that relation restricted to its new rows. */
  method DeltaRuns<S(==, !new)>(src: Source, name: S, rule: InlineRule<S>, contained: map<S, Multiplicity>, stores: Stores<S>) returns (out: set<Tuple>)
    requires AllValid(stores) && name in stores && WellOrdered(rule.body) && IsPlain(rule)
    ensures out <= RuleRows(src, Totals(stores), Totals(stores), rule)
    ensures forall d, t :: d in contained && t in RuleRows(src, WithDelta(stores, d), Totals(stores), rule) && t !in stores[name].total ==> t in out
  {
    hide RuleRows, WellOrdered, IsPlain, Totals, WithDelta;
    out := {};
    var tabs := Totals(stores);
    var todo := contained.Keys;
    while todo != {}
      invariant todo <= contained.Keys
      invariant out <= RuleRows(src, tabs, tabs, rule)
      invariant forall d, t :: d in contained.Keys - todo && t in RuleRows(src, WithDelta(stores, d), tabs, rule) && t !in stores[name].total ==> t in out
    {
      var d :| d in todo;
      var pos := WithDelta(stores, d);
      WithDeltaLess(stores, d);
      RowsMonotone(src, pos, tabs, tabs, rule);
      out := out + set t | t in RuleRows(src, pos, tabs, rule) && t !in stores[name].total;
      todo := todo - {d};
    }
  }

  lemma WithDeltaLess<S(!new)>(stores: Stores<S>, d: S)
    requires AllValid(stores)
    ensures Facts(WithDelta(stores, d)) <= Facts(Totals(stores))
  {
  }

  lemma NewRowFound<S(!new)>(src: Source, stores: Stores<S>, rule: InlineRule<S>, t: Tuple) returns (d: S)
    requires AllValid(stores) && WellOrdered(rule.body) && IsPlain(rule)
    requires t in RuleRows(src, Totals(stores), Totals(stores), rule) && t !in RuleRows(src, Previous(stores), Totals(stores), rule)
    ensures Count(rule.body, d) > 0 && d in stores && stores[d].Delta() != {}
    ensures Count(rule.body, d) == 1 ==> t in RuleRows(src, WithDelta(stores, d), Totals(stores), rule)
  {
    hide RuleRows, WellOrdered, IsPlain, Count;
    var tabs := Totals(stores);
    var delta: Tables<S> := map n | n in stores :: stores[n].Delta();
    assert Previous(stores) == Minus(tabs, delta);
    d := DeltaRows(src, tabs, delta, rule, t);
    assert WithDelta(stores, d) == Swap(tabs, delta, d);
  }

  // ----- kinds of rule sets -----

  datatype AggrKind = NoAggr | Normal | Meet

  /** Meet aggregations must all be at the last positions. */
  function KindOf(aggr: seq<Option<Aggregation>>): AggrKind {
    if forall i :: 0 <= i < |aggr| ==> aggr[i].None? then NoAggr
    else if && (forall i :: 0 <= i < |aggr| && aggr[i].Some? ==> aggr[i].value.isMeet)
            && (forall i, j :: 0 <= i < j < |aggr| && aggr[i].Some? ==> aggr[j].Some?) then Meet
    else Normal
  }

  method ScanKind(aggr: seq<Option<Aggregation>>) returns (k: AggrKind)
    ensures k == KindOf(aggr)
  {
    var hasNonMeet, hasAggr := false, false;
    for i := 0 to |aggr|
      invariant hasAggr <==> exists j :: 0 <= j < i && aggr[j].Some?
      invariant hasNonMeet <==> || (exists j :: 0 <= j < i && aggr[j].Some? && !aggr[j].value.isMeet)
                                || (exists j, l :: 0 <= j < l < i && aggr[j].Some? && aggr[l].None?)
    {
      match aggr[i]
      case None =>
        if hasAggr {
          hasNonMeet := true;
        }
      case Some(a) =>
        hasAggr := true;
        hasNonMeet := hasNonMeet || !a.isMeet;
    }
    k := if !hasAggr then NoAggr else if hasNonMeet then Normal else Meet;
  }

  /** Computed once, in the first epoch: fixed rules and ordinary aggregations. */
  predicate IsOnce<S>(rf: RulesOrFixed<S>) {
    rf.Fixed? || (rf.rules != [] && KindOf(rf.rules[0].aggr) == Normal)
  }

  /** None of the names is read through negation. */
  ghost predicate NegationFree<S>(rules: seq<InlineRule<S>>, names: set<S>) {
    forall i, j :: 0 <= i < |rules| && 0 <= j < |rules[i].body| && rules[i].body[j].NegatedRule? ==> rules[i].body[j].name !in names
  }

  /** What evaluation expects of a stratum: rules in order, relations known, negation only of completed relations. */
  ghost predicate Evaluable<S(!new)>(prog: Rules<S>, known: set<S>) {
    && prog.Keys <= known
    && (forall n :: n in prog && prog[n].Rules? ==>
          && prog[n].rules != []
          && (if IsOnce(prog[n]) then forall i :: 0 <= i < |prog[n].rules| ==> !IsPlain(prog[n].rules[i])
              else KindOf(prog[n].rules[0].aggr) == NoAggr && RulesOk(prog[n].rules, known)))
    && (forall n :: n in prog && prog[n].Rules? && !IsOnce(prog[n]) ==> NegationFree(prog[n].rules, prog.Keys))
  }

  /** How fixed rules and aggregations compute their rows from the relations that are there. */
  type OnceFn<!S(==)> = (S, Tables<S>) -> set<Tuple>

  /** Where a stratum starts: the completed relations, and what is computed once from them. */
  ghost function Base<S(!new)>(prog: Rules<S>, once: OnceFn<S>, start: Tables<S>): DB<S> {
    iset f: Fact<S> |
      || f in Facts(start)
      || (f.name in prog && IsOnce(prog[f.name]) && f.tuple in once(f.name, start))
  }

  ghost predicate SameOutside<S(!new)>(prog: Rules<S>, a: Tables<S>, b: Tables<S>) {
    a.Keys == b.Keys && forall n :: n in a && n !in prog ==> a[n] == b[n]
  }

  /** Nothing of the stratum itself is there at the start. */
  ghost predicate FreshStart<S(!new)>(prog: Rules<S>, start: Tables<S>) {
    prog.Keys <= start.Keys && forall n :: n in prog ==> start[n] == {}
  }

  /** Produced rows are derived facts, whichever completed relations negation looks at. */
  lemma NegFrame<S(!new)>(w: World, pos: DB<S>, neg: DB<S>, neg': DB<S>, a: Atom<S>, env: Env)
    requires a.NegatedRule? ==> forall t :: Fact(a.name, t) in neg <==> Fact(a.name, t) in neg'
    ensures Holds(w, pos, neg, a, env) <==> Holds(w, pos, neg', a, env)
  {
  }

  lemma ProducedIsDerived<S(!new)>(src: Source, prog: Rules<S>, once: OnceFn<S>, start: Tables<S>, pos: Tables<S>, tot: Tables<S>,
                                   n: S, t: Tuple)
    requires Evaluable(prog, start.Keys) && SameOutside(prog, start, tot)
    requires n in prog && prog[n].Rules? && !IsOnce(prog[n])
    ensures Produces(src, pos, tot, prog[n].rules, t) <==>
            Derives(WorldOf(src), prog, Facts(pos), Base(prog, once, start), Fact(n, t))
  {
    hide RuleRows, WellOrdered, IsPlain, KindOf, Holds, BodyBinds;
    var w, base, rules := WorldOf(src), Base(prog, once, start), prog[n].rules;
    forall i, env | 0 <= i < |rules|
      ensures Yields(w, Facts(pos), Facts(tot), rules[i], env, t) <==> Yields(w, Facts(pos), base, rules[i], env, t)
    {
      forall j | 0 <= j < |rules[i].body|
        ensures Holds(w, Facts(pos), Facts(tot), rules[i].body[j], env) <==> Holds(w, Facts(pos), base, rules[i].body[j], env)
      {
        NegFrame(w, Facts(pos), Facts(tot), base, rules[i].body[j], env);
      }
    }
    if Produces(src, pos, tot, rules, t) {
      var i :| 0 <= i < |rules| && t in RuleRows(src, pos, tot, rules[i]);
      RuleRowsIs(src, pos, tot, rules[i], t);
      var env :| Yields(w, Facts(pos), Facts(tot), rules[i], env, t);
      assert HasRule(prog, n, rules[i]) && Yields(w, Facts(pos), base, rules[i], env, t);
    }
    if Derives(w, prog, Facts(pos), base, Fact(n, t)) {
      var r, env :| HasRule(prog, n, r) && Yields(w, Facts(pos), base, r, env, t);
      var i :| 0 <= i < |rules| && rules[i] == r;
      RuleRowsIs(src, pos, tot, r, t);
      assert t in RuleRows(src, pos, tot, rules[i]);
    }
  }

  // ----- one epoch, on contents -----

  /** What is known between epochs: only consequences are there, and all consequences of what was there before. */
  ghost predicate Between<S(!new)>(src: Source, prog: Rules<S>, once: OnceFn<S>, start: Tables<S>, prev: Tables<S>, tot: Tables<S>) {
    var w, base := WorldOf(src), Base(prog, once, start);
    && SameOutside(prog, start, prev) && SameOutside(prog, start, tot)
    && base <= Facts(tot) <= Least(w, prog, base)
    && forall f :: Derives(w, prog, Facts(prev), base, f) ==> f in Facts(tot)
  }

  /** What the first epoch adds to each relation. */
  ghost predicate FirstRows<S(!new)>(src: Source, prog: Rules<S>, once: OnceFn<S>, tot: Tables<S>, n: S, rows: set<Tuple>)
    requires n in prog
  {
    if IsOnce(prog[n]) then rows == once(n, tot)
    else prog[n].Rules? && forall t :: t in rows <==> Produces(src, tot, tot, prog[n].rules, t)
  }

  /** What a later epoch adds: consequences, among them all that did not follow before. */
  ghost predicate NextRows<S(!new)>(src: Source, prog: Rules<S>, prev: Tables<S>, tot: Tables<S>, n: S, rows: set<Tuple>)
    requires n in prog && n in tot
  {
    if IsOnce(prog[n]) then rows == {}
    else
      && prog[n].Rules?
      && (forall t :: t in rows ==> Produces(src, tot, tot, prog[n].rules, t))
      && (forall t :: (&& Produces(src, tot, tot, prog[n].rules, t) && t !in tot[n]
                       && !Produces(src, prev, tot, prog[n].rules, t)) ==> t in rows)
  }

  /** The rows of the epoch are added to the relations of the stratum. */
  ghost predicate Merged<S(!new)>(prog: Rules<S>, tot: Tables<S>, rows: Tables<S>, tot': Tables<S>) {
    && SameOutside(prog, tot, tot') && prog.Keys <= tot.Keys && rows.Keys == prog.Keys
    && forall n :: n in prog ==> tot'[n] == tot[n] + rows[n]
  }

  lemma FactsGrow<S(!new)>(prog: Rules<S>, tot: Tables<S>, rows: Tables<S>, tot': Tables<S>, f: Fact<S>)
    requires Merged(prog, tot, rows, tot')
    ensures f in Facts(tot') <==> f in Facts(tot) || (f.name in prog && f.tuple in rows[f.name])
  {
  }

  lemma OnceDerivesNothing<S(!new)>(w: World, prog: Rules<S>, known: set<S>, pos: DB<S>, neg: DB<S>, f: Fact<S>)
    requires Evaluable(prog, known) && Derives(w, prog, pos, neg, f)
    ensures f.name in prog && prog[f.name].Rules? && !IsOnce(prog[f.name])
  {
    hide IsPlain, BodyHolds, RulesOk, NegationFree, KindOf;
    var r, env :| HasRule(prog, f.name, r) && Yields(w, pos, neg, r, env, f.tuple);
    var i :| 0 <= i < |prog[f.name].rules| && prog[f.name].rules[i] == r;
  }

  lemma FirstEpoch<S(!new)>(src: Source, prog: Rules<S>, once: OnceFn<S>, tot: Tables<S>, rows: Tables<S>, tot': Tables<S>)
    requires Evaluable(prog, tot.Keys) && FreshStart(prog, tot) && Merged(prog, tot, rows, tot')
    requires forall n :: n in prog ==> FirstRows(src, prog, once, tot, n, rows[n])
    ensures Between(src, prog, once, tot, tot, tot')
  {
    hide IsOnce, Evaluable, RulesOk, Produces, Derives, IsModel, Least;
    var w, base := WorldOf(src), Base(prog, once, tot);
    var least := Least(w, prog, base);
    LeastFacts(w, prog, base);
    forall f | Derives(w, prog, Facts(tot), base, f)
      ensures f in Facts(tot')
    {
      OnceDerivesNothing(w, prog, tot.Keys, Facts(tot), base, f);
      ProducedIsDerived(src, prog, once, tot, tot, tot, f.name, f.tuple);
      FactsGrow(prog, tot, rows, tot', f);
    }
    forall f | f in Facts(tot')
      ensures f in least
    {
      FactsGrow(prog, tot, rows, tot', f);
      if f !in Facts(tot) && !IsOnce(prog[f.name]) {
        ProducedIsDerived(src, prog, once, tot, tot, tot, f.name, f.tuple);
        DerivesMonotone(w, prog, Facts(tot), least, base, f);
      }
    }
    forall f | f in base
      ensures f in Facts(tot')
    {
      FactsGrow(prog, tot, rows, tot', f);
    }
  }

  lemma LeastFacts<S(!new)>(w: World, prog: Rules<S>, base: DB<S>)
    ensures base <= Least(w, prog, base)
    ensures forall f :: Derives(w, prog, Least(w, prog, base), base, f) ==> f in Least(w, prog, base)
  {
    LeastIsModel(w, prog, base);
  }

  lemma NextEpoch<S(!new)>(src: Source, prog: Rules<S>, once: OnceFn<S>, start: Tables<S>, prev: Tables<S>, tot: Tables<S>,
                           rows: Tables<S>, tot': Tables<S>)
    requires Evaluable(prog, start.Keys) && Between(src, prog, once, start, prev, tot) && Merged(prog, tot, rows, tot')
    requires forall n :: n in prog ==> NextRows(src, prog, prev, tot, n, rows[n])
    ensures Between(src, prog, once, start, tot, tot')
  {
    hide IsOnce, Evaluable, RulesOk, Produces, Derives, IsModel, Least, Base;
    var w, base := WorldOf(src), Base(prog, once, start);
    var least := Least(w, prog, base);
    LeastFacts(w, prog, base);
    forall f | Derives(w, prog, Facts(tot), base, f)
      ensures f in Facts(tot')
    {
      OnceDerivesNothing(w, prog, start.Keys, Facts(tot), base, f);
      ProducedIsDerived(src, prog, once, start, tot, tot, f.name, f.tuple);
      ProducedIsDerived(src, prog, once, start, prev, tot, f.name, f.tuple);
      assert NextRows(src, prog, prev, tot, f.name, rows[f.name]);
      FactsGrow(prog, tot, rows, tot', f);
    }
    forall f | f in Facts(tot')
      ensures f in least
    {
      FactsGrow(prog, tot, rows, tot', f);
      if f !in Facts(tot) {
        assert NextRows(src, prog, prev, tot, f.name, rows[f.name]);
        ProducedIsDerived(src, prog, once, start, tot, tot, f.name, f.tuple);
        DerivesMonotone(w, prog, Facts(tot), least, base, f);
      }
    }
    forall f | f in base
      ensures f in Facts(tot')
    {
      FactsGrow(prog, tot, rows, tot', f);
    }
  }

  /** When nothing new came up, everything is there. */
  lemma Settled<S(!new)>(src: Source, prog: Rules<S>, once: OnceFn<S>, start: Tables<S>, tot: Tables<S>)
    requires Between(src, prog, once, start, tot, tot)
    ensures Facts(tot) == Least(WorldOf(src), prog, Base(prog, once, start))
  {
    hide Derives, Base, Facts;
    var w, base := WorldOf(src), Base(prog, once, start);
    assert IsModel(w, prog, base, Facts(tot));
    LeastInModel(w, prog, base, Facts(tot));
  }

  // ----- the epochs of a stratum -----

  /** The first epoch, for one relation. */
  method FirstRelation<S(==, !new)>(src: Source, prog: Rules<S>, once: OnceFn<S>, stores: Stores<S>, n: S) returns (rows: set<Tuple>)
    requires Evaluable(prog, stores.Keys) && n in prog
    ensures FirstRows(src, prog, once, Totals(stores), n, rows)
  {
    hide RulesOk, NegationFree, KindOf, Produces, Totals;
    rows := {};
    match prog[n]
    case Rules(rules) =>
      var kind := ScanKind(rules[0].aggr);
      if kind == Normal {
        rows := once(n, Totals(stores));
      } else {
        rows := InitialRuleNonAggrEval(src, rules, stores);
      }
    case Fixed(_, _) =>
      rows := once(n, Totals(stores));
  }

  /** A later epoch, for one relation. */
  method NextRelation<S(==, !new)>(src: Source, prog: Rules<S>, stores: Stores<S>, n: S) returns (rows: set<Tuple>)
    requires AllValid(stores) && Evaluable(prog, stores.Keys) && n in prog
    ensures NextRows(src, prog, Previous(stores), Totals(stores), n, rows)
  {
    hide NegationFree, KindOf, Produces;
    rows := {};
    match prog[n]
    case Rules(rules) =>
      var kind := ScanKind(rules[0].aggr);
      if kind != Normal {
        rows := IncrementalRuleNonAggrEval(src, n, rules, stores);
      }
    case Fixed(_, _) =>
  }

  method Epoch<S(==, !new)>(src: Source, prog: Rules<S>, once: OnceFn<S>, stores: Stores<S>, epoch: nat) returns (toMerge: Tables<S>)
    requires AllValid(stores) && Evaluable(prog, stores.Keys)
    ensures toMerge.Keys == prog.Keys
    ensures epoch == 0 ==> forall n :: n in prog ==> FirstRows(src, prog, once, Totals(stores), n, toMerge[n])
    ensures epoch > 0 ==> forall n :: n in prog ==> NextRows(src, prog, Previous(stores), Totals(stores), n, toMerge[n])
  {
    hide Evaluable, FirstRows, NextRows, Totals, Previous;
    toMerge := map[];
    assert prog.Keys <= Totals(stores).Keys by { KnownNames(prog, stores); }
    var todo := prog.Keys;
    while todo != {}
      invariant todo <= prog.Keys && toMerge.Keys == prog.Keys - todo
      invariant epoch == 0 ==> forall n :: n in toMerge ==> FirstRows(src, prog, once, Totals(stores), n, toMerge[n])
      invariant epoch > 0 ==> forall n :: n in toMerge ==> NextRows(src, prog, Previous(stores), Totals(stores), n, toMerge[n])
    {
      var n :| n in todo;
      var rows;
      if epoch == 0 {
        rows := FirstRelation(src, prog, once, stores, n);
      } else {
        rows := NextRelation(src, prog, stores, n);
      }
      toMerge := toMerge[n := rows];
      todo := todo - {n};
    }
  }

  lemma KnownNames<S(!new)>(prog: Rules<S>, stores: Stores<S>)
    requires Evaluable(prog, stores.Keys)
    ensures prog.Keys <= stores.Keys == Totals(stores).Keys
  {
  }

  method MergeOne<S(==, !new)>(k: S, rows: set<Tuple>, stores: Stores<S>) returns (d: bool)
    requires k in stores && Separate(stores) && AllValid(stores)
    modifies stores[k]
    ensures AllValid(stores)
    ensures stores[k].total == old(stores[k].total) + rows && stores[k].Delta() == rows - old(stores[k].total)
    ensures forall n :: n in stores && n != k ==> stores[n].total == old(stores[n].total) && stores[n].Delta() == old(stores[n].Delta())
    ensures d <==> stores[k].Delta() != {}
  {
    stores[k].MergeIn(rows);
    d := stores[k].HasDelta();
  }

  /** Adds what an epoch found; says whether any relation has new rows. */
  method MergeAll<S(==, !new)>(names: set<S>, toMerge: Tables<S>, stores: Stores<S>) returns (changed: bool)
    requires names == toMerge.Keys <= stores.Keys && Separate(stores) && AllValid(stores)
    modifies set n | n in names :: stores[n]
    ensures AllValid(stores)
    ensures forall n :: n in names ==> stores[n].total == old(stores[n].total) + toMerge[n]
    ensures forall n :: n in names ==> stores[n].Delta() == toMerge[n] - old(stores[n].total)
    ensures forall n :: n in stores && n !in names ==> stores[n].total == old(stores[n].total) && stores[n].Delta() == old(stores[n].Delta())
    ensures changed <==> exists n :: n in names && stores[n].Delta() != {}
  {
    changed := false;
    var todo := names;
    ghost var done: set<S> := {};
    while todo != {}
      invariant done !! todo && done + todo == names && AllValid(stores)
      invariant forall n :: n in done ==> stores[n].total == old(stores[n].total) + toMerge[n]
      invariant forall n :: n in done ==> stores[n].Delta() == toMerge[n] - old(stores[n].total)
      invariant forall n :: n in stores && n !in done ==> stores[n].total == old(stores[n].total) && stores[n].Delta() == old(stores[n].Delta())
      invariant changed <==> exists n :: n in done && stores[n].Delta() != {}
    {
      var k :| k in todo;
      var d := MergeOne(k, toMerge[k], stores);
      todo, done := todo - {k}, done + {k};
      changed := changed || d;
    }
  }

  lemma NothingNew<S(!new)>(stores: Stores<S>)
    requires forall n :: n in stores ==> stores[n].Delta() == {}
    ensures Previous(stores) == Totals(stores)
  {
    forall n | n in stores
      ensures Previous(stores)[n] == Totals(stores)[n]
    {
      assert stores[n].total - {} == stores[n].total;
    }
  }

  method MergeEpoch<S(==, !new)>(prog: Rules<S>, toMerge: Tables<S>, stores: Stores<S>) returns (changed: bool)
    requires prog.Keys == toMerge.Keys <= stores.Keys && Separate(stores) && AllValid(stores)
    requires forall n :: n in stores && n !in prog ==> stores[n].Delta() == {}
    modifies set n | n in prog && n in stores :: stores[n]
    ensures AllValid(stores)
    ensures Merged(prog, old(Totals(stores)), toMerge, Totals(stores))
    ensures Previous(stores) == old(Totals(stores))
    ensures forall n :: n in stores && n !in prog ==> stores[n].Delta() == {}
    ensures changed <==> exists n :: n in prog && toMerge[n] - old(Totals(stores))[n] != {}
    ensures !changed ==> forall n :: n in stores ==> stores[n].Delta() == {}
  {
    changed := MergeAll(prog.Keys, toMerge, stores);
    forall n | n in stores
      ensures Previous(stores)[n] == old(Totals(stores))[n]
    {
      assert n in prog ==> stores[n].total - (toMerge[n] - old(stores[n].total)) == old(stores[n].total);
    }
    assert Previous(stores) == old(Totals(stores));
  }

  /** The facts that may still be found. */
  ghost function Missing<S(!new)>(bound: set<Fact<S>>, tot: Tables<S>): set<Fact<S>> {
    set f | f in bound && f !in Facts(tot)
  }

  ghost predicate Finite<S(!new)>(db: DB<S>, bound: set<Fact<S>>) {
    forall f :: f in db ==> f in bound
  }

  lemma NewRowsCount<S(!new)>(prog: Rules<S>, bound: set<Fact<S>>, tot: Tables<S>, rows: Tables<S>, tot': Tables<S>, n: S)
    requires Merged(prog, tot, rows, tot') && Finite(Facts(tot'), bound)
    requires n in prog && rows[n] - tot[n] != {}
    ensures Missing(bound, tot') < Missing(bound, tot)
  {
    var t :| t in rows[n] - tot[n];
    assert Fact(n, t) in Missing(bound, tot) && Fact(n, t) !in Missing(bound, tot');
    forall f | f in Missing(bound, tot')
      ensures f in Missing(bound, tot)
    {
      FactsGrow(prog, tot, rows, tot', f);
    }
  }

  /** One turn of the loop; as long as it changes something, fewer facts are missing. */
  method RunEpoch<S(==, !new)>(src: Source, prog: Rules<S>, once: OnceFn<S>, stores: Stores<S>, epoch: nat, ghost start: Tables<S>, ghost bound: set<Fact<S>>)
    returns (changed: bool)
    requires Separate(stores) && AllValid(stores) && Evaluable(prog, stores.Keys)
    requires forall n :: n in stores && n !in prog ==> stores[n].Delta() == {}
    requires FreshStart(prog, start) && SameOutside(prog, start, Totals(stores))
    requires Finite(Least(WorldOf(src), prog, Base(prog, once, start)), bound)
    requires if epoch == 0 then Totals(stores) == start else Between(src, prog, once, start, Previous(stores), Totals(stores))
    modifies set n | n in prog && n in stores :: stores[n]
    ensures AllValid(stores) && SameOutside(prog, start, Totals(stores))
    ensures forall n :: n in stores && n !in prog ==> stores[n].Delta() == {}
    ensures Between(src, prog, once, start, Previous(stores), Totals(stores))
    ensures !changed ==> forall n :: n in stores ==> stores[n].Delta() == {}
    ensures changed ==> Missing(bound, Totals(stores)) < old(Missing(bound, Totals(stores)))
  {
    hide Evaluable, FirstRows, NextRows, Least, Base, Facts, Produces;
    KnownNames(prog, stores);
    var toMerge := Epoch(src, prog, once, stores, epoch);
    ghost var prev, tot := Previous(stores), Totals(stores);
    changed := MergeEpoch(prog, toMerge, stores);
    ghost var tot' := Totals(stores);
    if epoch == 0 {
      FirstEpoch(src, prog, once, tot, toMerge, tot');
    } else {
      NextEpoch(src, prog, once, start, prev, tot, toMerge, tot');
    }
    if changed {
      ghost var n :| n in prog && toMerge[n] - tot[n] != {};
      assert Finite(Facts(tot'), bound);
      NewRowsCount(prog, bound, tot, toMerge, tot', n);
    }
  }

  /** Evaluates a stratum. The derivable facts being finite, it ends, and then exactly they are there. */
  method SemiNaiveEvaluate<S(==, !new)>(src: Source, prog: Rules<S>, once: OnceFn<S>, stores: Stores<S>, ghost bound: set<Fact<S>>)
    requires Separate(stores) && AllValid(stores) && Evaluable(prog, stores.Keys)
    requires FreshStart(prog, Totals(stores))
    requires forall n :: n in stores && n !in prog ==> stores[n].Delta() == {}
    requires Finite(Least(WorldOf(src), prog, Base(prog, once, Totals(stores))), bound)
    modifies set n | n in prog && n in stores :: stores[n]
    ensures AllValid(stores) && forall n :: n in stores ==> stores[n].Delta() == {}
    ensures Facts(Totals(stores)) == Least(WorldOf(src), prog, Base(prog, once, old(Totals(stores))))
    ensures SameOutside(prog, old(Totals(stores)), Totals(stores))
  {
    hide Evaluable, FirstRows, NextRows, Least, Base, Facts, Produces;
    KnownNames(prog, stores);
    ghost var start := Totals(stores);
    ghost var least := Least(WorldOf(src), prog, Base(prog, once, start));
    var epoch, changed := 0, true;
    while changed
      invariant AllValid(stores)
      invariant forall n :: n in stores && n !in prog ==> stores[n].Delta() == {}
      invariant SameOutside(prog, start, Totals(stores))
      invariant epoch == 0 ==> changed && Totals(stores) == start
      invariant epoch > 0 ==> Between(src, prog, once, start, Previous(stores), Totals(stores))
      invariant !changed ==> epoch > 0 && forall n :: n in stores ==> stores[n].Delta() == {}
      decreases changed, Missing(bound, Totals(stores))
    {
      changed := RunEpoch(src, prog, once, stores, epoch, start, bound);
      epoch := epoch + 1;
    }
    NothingNew(stores);
    Settled(src, prog, once, start, Totals(stores));
  }
}
