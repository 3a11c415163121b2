/** Compiling a rule: what its atoms have to fit, and the variables they are joined on (query/compile.rs). */
module Compile {
  import opened Wrappers
  import opened Exprs
  import opened Program
  import Bytecode

  type JoinVars = set<Symbol>

  /** The variables that stand in the columns of an atom. */
  function Columns<S>(a: Atom<S>): seq<Symbol> {
    match a
    case Rule(_, args) => args
    case NegatedRule(_, args) => args
    case Relation(_, args, _) => args
    case NegatedRelation(_, args, _) => args
    case Unification(b, _, _) => [b]
    case Search(_, _, bs) => bs
    case Predicate(_) => []
  }

  /** What an atom adds to the variables recorded as seen: negated stored relations record their arguments, negated rules do not. */
  function Records<S>(a: Atom<S>): set<Symbol> {
    if a.NegatedRelation? then set s | s in a.args else Binds(a)
  }

  /** While the columns are gone through, those of the atom itself are recorded one by one. */
  predicate RecordsAlong<S>(a: Atom<S>) {
    a.Rule? || a.Relation? || a.NegatedRelation?
  }

  function Recorded<S>(body: seq<Atom<S>>, k: nat): set<Symbol>
    requires k <= |body|
  {
    if k == 0 then {} else Recorded(body, k - 1) + Records(body[k - 1])
  }

  /** The columns that are compared with the left side. */
  function Joined<S>(a: Atom<S>, seen: set<Symbol>): JoinVars {
    var cs := Columns(a);
    set j | 0 <= j < |cs| && (cs[j] in seen || (RecordsAlong(a) && cs[j] in cs[..j])) :: cs[j]
  }

  /** Every variable that is compared is there on the left side; otherwise the lookup of its position fails. */
  ghost predicate JoinsBound<S>(body: seq<Atom<S>>) {
    forall i :: 0 <= i < |body| ==> Joined(body[i], Recorded(body, i)) <= BodyBinds(body[..i])
  }

  // ----- what an atom has to fit -----

  /** A stored relation: how many columns it has, how many of them are keys, and whether the last key is a validity. */
  datatype StoredRel = StoredRel(arity: nat, keys: nat, versioned: bool)

  /** The stored relations, and how many columns the fixed rules give. */
  datatype Catalog = Catalog(stored: map<Symbol, StoredRel>, fixed: Symbol -> nat)

  /** What is applied is there and has as many columns as there are arguments; relations read at a time have validities, negated
      ones are not read at a time, as there is no code for that; and the functions of an expression are known. */
  predicate AtomFits<S>(cat: Catalog, arities: map<S, nat>, a: Atom<S>) {
    match a
    case Rule(n, args) => n in arities && arities[n] == |args|
    case NegatedRule(n, args) => n in arities && arities[n] == |args|
    case Relation(r, args, at) => r in cat.stored && cat.stored[r].arity == |args| && (at.Some? ==> cat.stored[r].versioned)
    case NegatedRelation(r, args, at) => r in cat.stored && cat.stored[r].arity == |args| && at.None?
    case Predicate(e) => Bytecode.Compilable(e)
    case Unification(_, e, _) => Bytecode.Compilable(e)
    case Search(_, _, _) => true
  }

  ghost predicate AllFit<S>(cat: Catalog, arities: map<S, nat>, body: seq<Atom<S>>) {
    forall i :: 0 <= i < |body| ==> AtomFits(cat, arities, body[i])
  }

  /** The variables of expressions and those that are compared are found among the variables bound before. */
  ghost predicate AtomCompiles<S>(cat: Catalog, arities: map<S, nat>, body: seq<Atom<S>>, i: nat)
    requires i < |body|
  {
    && AtomFits(cat, arities, body[i])
    && Uses(body[i]) <= BodyBinds(body[..i])
    && Joined(body[i], Recorded(body, i)) <= BodyBinds(body[..i])
  }

  ghost predicate HeadIsBound<S>(r: InlineRule<S>) {
    forall i :: 0 <= i < |r.head| ==> r.head[i] in BodyBinds(r.body)
  }

  ghost predicate Compiles<S>(cat: Catalog, arities: map<S, nat>, r: InlineRule<S>) {
    (forall i: nat :: i < |r.body| ==> AtomCompiles(cat, arities, r.body, i)) && HeadIsBound(r)
  }

  // ----- the loop -----

  /** Goes through the columns of one atom. */
  method JoinColumns<S>(a: Atom<S>, seen: set<Symbol>) returns (joined: JoinVars, seen': set<Symbol>)
    ensures joined == Joined(a, seen)
    ensures seen' == seen + Records(a)
  {
    var cs := Columns(a);
    joined, seen' := {}, seen;
    for j := 0 to |cs|
      invariant joined == set l | 0 <= l < j && (cs[l] in seen || (RecordsAlong(a) && cs[l] in cs[..l])) :: cs[l]
      invariant forall s :: s in seen' <==> s in seen || (RecordsAlong(a) && s in cs[..j])
    {
      assert cs[..j + 1] == cs[..j] + [cs[j]];
      if cs[j] in seen' {
        joined := joined + {cs[j]};
      } else if RecordsAlong(a) {
        seen' := seen' + {cs[j]};
      }
    }
    assert cs[..|cs|] == cs;
    if a.Unification? || a.Search? {
      seen' := seen' + set s | s in cs;
    }
  }

  /** The columns that have a value when the atom is reached. */
  ghost function BoundColumns<S>(body: seq<Atom<S>>, i: nat): JoinVars
    requires i < |body|
  {
    (set s | s in Columns(body[i])) * BodyBinds(body[..i])
  }

  /** Compiles a rule: fails exactly if an atom does not fit, a variable is to be looked up or compared that the atoms before do not
      bind, or the head is not bound; otherwise each atom is joined on exactly those of its columns that have a value. The source
      looks up the variables to compare when evaluation begins, and panics. */
  method CompileBody<S>(cat: Catalog, arities: map<S, nat>, r: InlineRule<S>) returns (res: Result<seq<JoinVars>>)
    ensures res.Success? <==> Compiles(cat, arities, r)
    ensures res.Success? ==> |res.value| == |r.body| && forall i: nat :: i < |r.body| ==> res.value[i] == BoundColumns(r.body, i)
  {
    hide AtomCompiles, BoundColumns, BodyBinds, Records, Joined;
    var body := r.body;
    var plan: seq<JoinVars> := [];
    var seen, left: set<Symbol> := {}, {};
    BodyBindsNone(body[..0]);
    for i := 0 to |body|
      invariant |plan| == i && seen == Recorded(body, i) && left == BodyBinds(body[..i])
      invariant forall k: nat :: k < i ==> AtomCompiles(cat, arities, body, k) && plan[k] == BoundColumns(body, k)
    {
      var joined, next := CompileAtom(cat, arities, body[i], seen, left);
      StepIs(cat, arities, body, i);
      if joined.Failure? {
        return Failure;
      }
      BodyBindsStep(body, i);
      plan, seen, left := plan + [joined.value], next, left + Binds(body[i]);
    }
    assert body[..|body|] == body;
    for i := 0 to |r.head|
      invariant forall k :: 0 <= k < i ==> r.head[k] in left
    {
      if r.head[i] !in left {
        return Failure;
      }
    }
    res := Success(plan);
  }

  method CompileAtom<S>(cat: Catalog, arities: map<S, nat>, a: Atom<S>, seen: set<Symbol>, left: set<Symbol>) returns (res: Result<JoinVars>, seen': set<Symbol>)
    ensures res.Success? <==> AtomFits(cat, arities, a) && Uses(a) <= left && Joined(a, seen) <= left
    ensures res.Success? ==> res.value == Joined(a, seen)
    ensures seen' == seen + Records(a)
  {
    hide Joined, Records, AtomFits;
    var joined;
    joined, seen' := JoinColumns(a, seen);
    res := if AtomFits(cat, arities, a) && Uses(a) <= left && joined <= left then Success(joined) else Failure;
  }

  lemma StepIs<S>(cat: Catalog, arities: map<S, nat>, body: seq<Atom<S>>, i: nat)
    requires i < |body|
    ensures var left := BodyBinds(body[..i]);
            AtomCompiles(cat, arities, body, i) <==> AtomFits(cat, arities, body[i]) && Uses(body[i]) <= left && Joined(body[i], Recorded(body, i)) <= left
    ensures AtomCompiles(cat, arities, body, i) ==> Joined(body[i], Recorded(body, i)) == BoundColumns(body, i)
    ensures Recorded(body, i + 1) == Recorded(body, i) + Records(body[i])
  {
    hide Joined, BodyBinds, Records, AtomFits, Uses;
    if AtomCompiles(cat, arities, body, i) {
      JoinedIs(body, i);
    }
  }

  lemma {:induction false} BindsRecorded<S>(body: seq<Atom<S>>, k: nat)
    requires k <= |body|
    ensures BodyBinds(body[..k]) <= Recorded(body, k)
    decreases k
  {
    if k == 0 {
      BodyBindsNone(body[..0]);
    } else {
      BindsRecorded(body, k - 1);
      BodyBindsStep(body, k - 1);
      hide BodyBinds;
    }
  }

  /** Where the left side has what is compared, it is all that the columns share with it. */
  lemma JoinedIs<S>(body: seq<Atom<S>>, i: nat)
    requires i < |body| && Joined(body[i], Recorded(body, i)) <= BodyBinds(body[..i])
    ensures Joined(body[i], Recorded(body, i)) == BoundColumns(body, i)
  {
    hide BodyBinds, Recorded, Columns;
    BindsRecorded(body, i);
    var cs := Columns(body[i]);
    forall s | s in cs && s in BodyBinds(body[..i])
      ensures s in Joined(body[i], Recorded(body, i))
    {
      var j :| 0 <= j < |cs| && cs[j] == s;
    }
  }

  // ----- exactly when it succeeds -----

  /** A variable that nothing binds stands in a negated stored relation and again in a later negated atom. */
  ghost predicate SharesUnbound<S>(body: seq<Atom<S>>, i: nat, j: nat, s: Symbol) {
    && i < j < |body| && body[i].NegatedRelation? && s in body[i].args && s in Negates(body[j])
    && s !in BodyBinds(body)
  }

  /** A variable that is not bound before stands twice in one atom. */
  ghost predicate RepeatsUnbound<S>(body: seq<Atom<S>>, i: nat, s: Symbol) {
    && i < |body| && RecordsAlong(body[i]) && s !in BodyBinds(body[..i])
    && exists k, l :: 0 <= k < l < |Columns(body[i])| && Columns(body[i])[k] == Columns(body[i])[l] == s
  }

  lemma {:induction false} RecordedBy<S>(body: seq<Atom<S>>, k: nat, s: Symbol) returns (i: nat)
    requires k <= |body| && s in Recorded(body, k) && s !in BodyBinds(body[..k])
    ensures i < k && body[i].NegatedRelation? && s in body[i].args
    decreases k
  {
    BodyBindsStep(body, k - 1);
    hide BodyBinds;
    if s in Recorded(body, k - 1) {
      i := RecordedBy(body, k - 1, s);
    } else {
      i := k - 1;
    }
  }

  lemma {:induction false} RecordedAll<S>(body: seq<Atom<S>>, i: nat, k: nat)
    requires i < k <= |body|
    ensures Records(body[i]) <= Recorded(body, k)
    decreases k
  {
    if i < k - 1 {
      RecordedAll(body, i, k - 1);
    }
  }

  /** What an ordered body lacks on the left is shared or repeated. */
  lemma LacksMeans<S>(body: seq<Atom<S>>, j: nat, s: Symbol)
    requires WellOrdered(body) && j < |body| && s in Joined(body[j], Recorded(body, j)) && s !in BodyBinds(body[..j])
    ensures (exists i :: SharesUnbound(body, i, j, s)) || RepeatsUnbound(body, j, s)
  {
    hide BodyBinds, Recorded;
    var cs := Columns(body[j]);
    var l :| 0 <= l < |cs| && cs[l] == s && (s in Recorded(body, j) || (RecordsAlong(body[j]) && s in cs[..l]));
    if s in Recorded(body, j) {
      var i := RecordedBy(body, j, s);
      assert s in Negates(body[i]);
      NegatedStaysUnbound(body, i, s);
      BodyBindsPrefix(body, i);
      PrefixGrows(body, i, j);
      ColumnsKnown(body, j, s);
      assert SharesUnbound(body, i, j, s);
    } else {
      var k :| 0 <= k < l && cs[k] == s;
      assert RepeatsUnbound(body, j, s);
    }
  }

  lemma PrefixGrows<S>(body: seq<Atom<S>>, i: nat, j: nat)
    requires i <= j <= |body|
    ensures BodyBinds(body[..i]) <= BodyBinds(body[..j])
  {
    assert body[..j][..i] == body[..i];
    BodyBindsPrefix(body[..j], i);
  }

  lemma NegatedStaysUnbound<S>(body: seq<Atom<S>>, i: nat, s: Symbol)
    requires WellOrdered(body) && i < |body| && s in Negates(body[i])
    ensures s in BodyBinds(body) ==> s in BodyBinds(body[..i])
  {
    assert s in BodyBinds(body) ==> s in Negates(body[i]) * BodyBinds(body);
  }

  lemma ColumnsKnown<S>(body: seq<Atom<S>>, j: nat, s: Symbol)
    requires j < |body| && s in Columns(body[j])
    ensures s in Negates(body[j]) || s in BodyBinds(body)
  {
    assert s in Negates(body[j]) || s in Binds(body[j]);
  }

  lemma SharedLacks<S>(body: seq<Atom<S>>, i: nat, j: nat, s: Symbol)
    requires SharesUnbound(body, i, j, s)
    ensures s in Joined(body[j], Recorded(body, j)) && s !in BodyBinds(body[..j])
  {
    hide BodyBinds, Recorded;
    RecordedAll(body, i, j);
    BodyBindsPrefix(body, j);
    var cs := Columns(body[j]);
    var l :| 0 <= l < |cs| && cs[l] == s;
  }

  lemma RepeatedLacks<S>(body: seq<Atom<S>>, i: nat, s: Symbol)
    requires RepeatsUnbound(body, i, s)
    ensures s in Joined(body[i], Recorded(body, i)) && s !in BodyBinds(body[..i])
  {
    hide BodyBinds, Recorded;
    var cs := Columns(body[i]);
    var k, l :| 0 <= k < l < |cs| && cs[k] == cs[l] == s;
    assert cs[..l][k] == s;
  }

  /** For a body in order: every variable that is compared is there exactly if no unbound argument of a negated stored relation
      recurs in a later negated atom, and none stands twice in one atom. */
  lemma JoinsBoundIff<S(!new)>(body: seq<Atom<S>>)
    requires WellOrdered(body)
    ensures JoinsBound(body) <==> (forall i, j, s :: !SharesUnbound(body, i, j, s)) && (forall i, s :: !RepeatsUnbound(body, i, s))
  {
    hide Joined, BodyBinds, Recorded, WellOrdered, SharesUnbound, RepeatsUnbound;
    forall i, j, s | SharesUnbound(body, i, j, s)
      ensures !JoinsBound(body)
    {
      SharedLacks(body, i, j, s);
      SharedAt(body, i, j, s);
    }
    forall i, s | RepeatsUnbound(body, i, s)
      ensures !JoinsBound(body)
    {
      RepeatedLacks(body, i, s);
      RepeatedAt(body, i, s);
    }
    if !JoinsBound(body) {
      var j :| 0 <= j < |body| && !(Joined(body[j], Recorded(body, j)) <= BodyBinds(body[..j]));
      var s :| s in Joined(body[j], Recorded(body, j)) && s !in BodyBinds(body[..j]);
      LacksMeans(body, j, s);
    }
  }

  lemma SharedAt<S>(body: seq<Atom<S>>, i: nat, j: nat, s: Symbol)
    requires SharesUnbound(body, i, j, s)
    ensures j < |body|
  {
  }

  lemma RepeatedAt<S>(body: seq<Atom<S>>, i: nat, s: Symbol)
    requires RepeatsUnbound(body, i, s)
    ensures i < |body|
  {
  }

  ghost predicate ArgsDistinct<S>(x: Atom<S>) {
    (x.Rule? || x.NegatedRule? || x.Relation? || x.NegatedRelation? ==> Distinct(x.args))
  }

  ghost predicate AllArgsDistinct<S(!new)>(body: seq<Atom<S>>) {
    forall x :: x in body ==> ArgsDistinct(x)
  }

  lemma NeverRepeats<S(!new)>(body: seq<Atom<S>>, i: nat, s: Symbol)
    requires AllArgsDistinct(body)
    ensures !RepeatsUnbound(body, i, s)
  {
    hide BodyBinds;
    if i < |body| {
      assert body[i] in body;
      assert ArgsDistinct(body[i]);
    }
  }

  ghost predicate SharesSome<S>(body: seq<Atom<S>>) {
    exists i, j, s :: SharesUnbound(body, i, j, s)
  }

  /** An ordered rule with distinct arguments compiles exactly if its atoms fit, and no variable that nothing binds stands in a
      negated stored relation and again in a later negated atom. */
  lemma CompilesIff<S(!new)>(cat: Catalog, arities: map<S, nat>, r: InlineRule<S>)
    requires WellOrdered(r.body) && AllArgsDistinct(r.body) && HeadIsBound(r)
    ensures Compiles(cat, arities, r) <==> AllFit(cat, arities, r.body) && !SharesSome(r.body)
  {
    hide Joined, BodyBinds, AtomFits, Uses, Negates, SharesUnbound, RepeatsUnbound, AllArgsDistinct, Recorded, HeadIsBound;
    JoinsBoundIff(r.body);
    forall i, s
      ensures !RepeatsUnbound(r.body, i, s)
    {
      NeverRepeats(r.body, i, s);
    }
    if Compiles(cat, arities, r) {
      forall i | 0 <= i < |r.body|
        ensures AtomFits(cat, arities, r.body[i]) && Joined(r.body[i], Recorded(r.body, i)) <= BodyBinds(r.body[..i])
      {
        assert AtomCompiles(cat, arities, r.body, i);
      }
    }
  }

  /** `*a[x], not *r[x, y], not *s[x, y]`: in order, and not to be compiled. */
  ghost function SharedNegation(): seq<Atom<Symbol>> {
    [Relation("a", ["x"], None), NegatedRelation("r", ["x", "y"], None), NegatedRelation("s", ["x", "y"], None)]
  }

  lemma SharedNegationFails(cat: Catalog, arities: map<Symbol, nat>, head: seq<Symbol>, aggr: seq<Option<Aggregation>>)
    ensures WellOrdered(SharedNegation()) && !Compiles(cat, arities, InlineRule(head, aggr, SharedNegation()))
  {
    var body := SharedNegation();
    var a, r, s := body[0], body[1], body[2];
    assert BodyBinds(body) == {"x"} by {
      assert Binds(a) == {"x"} && Binds(r) == {} && Binds(s) == {};
      assert body == [a] + [r] + [s];
      BodyBindsOne(a);
      BodyBindsAppend([a], r);
      BodyBindsAppend([a] + [r], s);
    }
    assert body[..1] == [a] && body[..2] == [a] + [r];
    BodyBindsOne(a);
    BodyBindsAppend([a], r);
    assert Negates(r) == {"x", "y"} && Negates(s) == {"x", "y"};
    assert r.args[1] == "y";
    assert SharesUnbound(body, 1, 2, "y");
    SharedLacks(body, 1, 2, "y");
    assert !AtomCompiles(cat, arities, body, 2);
  }
}
