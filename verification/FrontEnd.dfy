/** From a source rule to rules in normal form and in order (data/program.rs), and what that leaves of its meaning. */
module FrontEnd {
  import opened Wrappers
  import opened Values
  import opened Exprs
  import opened Program
  import opened Datalog
  import opened PartialEval
  import opened NormalForm
  import opened NormalMeaning
  import opened Reorder
  import opened Compile
  import opened MagicCorrect
  import opened SemiNaive
  import opened StageReady

  // ----- the conversion -----

  /** One rule for each alternative, with the unifications of the repeated head variables, in order. */
  ghost predicate IsNormalized(alts: Alternatives, aggr: seq<Option<Aggregation>>, newHead: seq<Symbol>, extra: Conj, rules: seq<InlineRule<Symbol>>) {
    |rules| == |alts| && forall i :: 0 <= i < |alts| ==> rules[i] == InlineRule(newHead, aggr, Reordered(alts[i] + extra))
  }

  /** Normalises one source rule; fails exactly if its body has no normal form or an alternative no order. */
  method NormalizeRule(ops: Ops, head: seq<Symbol>, aggr: seq<Option<Aggregation>>, atoms: seq<InputAtom>)
    returns (res: Result<seq<InlineRule<Symbol>>>, ghost newHead: seq<Symbol>, ghost extra: Conj)
    ensures IsDeduped(head, newHead, extra)
    ensures res.Success? <==> Nnf(Conjunction(atoms)).Success? && Dnf(ops, Nnf(Conjunction(atoms)).value, 0).Success? &&
                              forall c :: c in Dnf(ops, Nnf(Conjunction(atoms)).value, 0).value.alts ==> Succeeds(c + extra)
    ensures res.Success? ==> IsNormalized(Dnf(ops, Nnf(Conjunction(atoms)).value, 0).value.alts, aggr, newHead, extra, res.value)
  {
    hide IsDeduped, Nnf, Dnf, Succeeds, Reordered;
    var headOut, extraOut := DedupHead(head);
    newHead, extra := headOut, extraOut;
    var alts := DisjunctiveNormalForm(ops, Conjunction(atoms));
    if alts.Failure? {
      return Failure, newHead, extra;
    }
    var rules: seq<InlineRule<Symbol>> := [];
    for i := 0 to |alts.value|
      invariant |rules| == i && forall k :: 0 <= k < i ==> rules[k] == InlineRule(headOut, aggr, Reordered(alts.value[k] + extraOut))
      invariant forall k :: 0 <= k < i ==> Succeeds(alts.value[k] + extraOut)
    {
      var ordered := ConvertToWellOrdered(alts.value[i] + extraOut);
      if ordered.Failure? {
        assert alts.value[i] in alts.value;
        return Failure, newHead, extra;
      }
      rules := rules + [InlineRule(headOut, aggr, ordered.value)];
    }
    res := Success(rules);
  }

  // ----- the rows of an alternative -----

  /** The variables of the user that a conjunction binds. */
  ghost function UserBinds(c: Conj): set<Symbol> {
    set s | s in BodyBinds(c) && IsUser(s)
  }

  /** The row of the head under values of the user's variables that satisfy the alternative. */
  ghost predicate AltYields(w: World, pos: DB<Symbol>, neg: DB<Symbol>, c: Conj, head: seq<Symbol>, env: Env, t: Tuple) {
    env.Keys == UserBinds(c) && Satisfied(w, pos, neg, c, env) && Bound(head, env) && t == Row(head, env)
  }

  /** The row of a rule under values of all its variables that satisfy its body. */
  ghost predicate RuleYields(w: World, pos: DB<Symbol>, neg: DB<Symbol>, r: InlineRule<Symbol>, env: Env, t: Tuple) {
    BodyHolds(w, pos, neg, r.body, env) && Bound(r.head, env) && t == Row(r.head, env)
  }

  ghost predicate UserHead(head: seq<Symbol>) {
    forall i :: 0 <= i < |head| ==> IsUser(head[i])
  }

  lemma TripleIsOwn(n: nat, lo: nat, hi: nat)
    ensures !IsUser(Triple(n)) && !GeneratedIn(Triple(n), lo, hi)
  {
    assert Triple(n)[0] == '*' && Triple(n)[1] == '*';
    forall m: nat
      ensures Triple(n) != Star(m) && Triple(n) != Tilde(m)
    {
      FirstDigit(m);
      assert Star(m)[1] == Digits(m)[0] && Tilde(m)[0] == '~';
    }
  }

  lemma {:induction false} FirstDigit(n: nat)
    ensures Digits(n)[0] != '*'
    decreases n
  {
    if n >= 10 {
      FirstDigit(n / 10);
    }
  }

  lemma PermutedBinds(a: Body, b: Body)
    requires multiset(a) == multiset(b)
    ensures BodyBinds(a) == BodyBinds(b)
    ensures forall x :: x in a <==> x in b
  {
    forall x
      ensures x in a <==> x in b
    {
      assert x in a <==> multiset(a)[x] > 0;
      assert x in b <==> multiset(b)[x] > 0;
    }
    BindsByMembers(a, b);
    BindsByMembers(b, a);
  }

  lemma BindsByMembers(a: Body, b: Body)
    requires forall x :: x in a ==> x in b
    ensures BodyBinds(a) <= BodyBinds(b)
  {
    forall s | s in BodyBinds(a)
      ensures s in BodyBinds(b)
    {
      var i :| 0 <= i < |a| && s in Binds(a[i]);
      assert a[i] in b;
      var j :| 0 <= j < |b| && b[j] == a[i];
    }
  }

  lemma BindsBoth(a: Body, b: Body)
    ensures BodyBinds(a + b) == BodyBinds(a) + BodyBinds(b)
  {
    forall s | s in BodyBinds(a + b)
      ensures s in BodyBinds(a) + BodyBinds(b)
    {
      var i :| 0 <= i < |a + b| && s in Binds((a + b)[i]);
      if i < |a| {
        assert s in Binds(a[i]);
      } else {
        assert s in Binds(b[i - |a|]);
      }
    }
    forall s | s in BodyBinds(a)
      ensures s in BodyBinds(a + b)
    {
      var i :| 0 <= i < |a| && s in Binds(a[i]);
      assert (a + b)[i] == a[i];
    }
    forall s | s in BodyBinds(b)
      ensures s in BodyBinds(a + b)
    {
      var i :| 0 <= i < |b| && s in Binds(b[i]);
      assert (a + b)[|a| + i] == b[i];
    }
  }

  ghost predicate IsRenamed(head: seq<Symbol>, s: Symbol) {
    exists i: nat :: i < |head| && !IsFirst(head, i) && HeadAt(head, i) == s
  }

  /** The unifications bind exactly the new head variables. */
  lemma ExtraBinds(head: seq<Symbol>, newHead: seq<Symbol>, extra: Conj, s: Symbol)
    requires IsDeduped(head, newHead, extra)
    ensures s in BodyBinds(extra) <==> IsRenamed(head, s)
  {
    hide HeadAt, IsFirst;
    if s in BodyBinds(extra) {
      var l :| 0 <= l < |extra| && s in Binds(extra[l]);
      assert extra[l] in extra;
      var i: nat :| i < |head| && !IsFirst(head, i) && extra[l] == Unification(HeadAt(head, i), Binding(head[i], None), false);
    }
    if i: nat :| i < |head| && !IsFirst(head, i) && HeadAt(head, i) == s {
      var x := Unification(HeadAt(head, i), Binding(head[i], None), false);
      assert x in extra;
      var l :| 0 <= l < |extra| && extra[l] == x;
      assert s in Binds(extra[l]);
    }
  }

  /** No variable of an alternative is a new head variable. */
  lemma ExtraApart(c: Conj, hi: nat, head: seq<Symbol>, newHead: seq<Symbol>, extra: Conj, s: Symbol)
    requires Ranged(c, 0, hi) && IsDeduped(head, newHead, extra) && s in BodyBinds(extra)
    ensures !IsUser(s) && forall x :: x in c ==> s !in AtomVars(x)
  {
    hide IsDeduped, BodyBinds, Ranged, AtomVars;
    ExtraBinds(head, newHead, extra, s);
    TripleIsOwn(Repeats(head, ColumnOf(head, s)), 0, hi);
    forall x | x in c
      ensures s !in AtomVars(x)
    {
      RangedVar(c, hi, x, s);
    }
  }

  lemma RangedVar(c: Conj, hi: nat, x: Atom<Symbol>, s: Symbol)
    requires Ranged(c, 0, hi) && x in c
    ensures s in AtomVars(x) ==> IsUser(s) || GeneratedIn(s, 0, hi)
  {
  }

  /** Everything that holds under the whole assignment holds under the part that the alternative binds. */
  lemma HoldsInPart(w: World, pos: DB<Symbol>, neg: DB<Symbol>, c: Conj, hi: nat, head: seq<Symbol>, newHead: seq<Symbol>, extra: Conj, env: Env, part: Env)
    requires Ranged(c, 0, hi) && IsDeduped(head, newHead, extra)
    requires env.Keys == BodyBinds(c) + BodyBinds(extra) && part.Keys == BodyBinds(c) && forall s :: s in part ==> part[s] == env[s]
    ensures AllHold(w, pos, neg, c, env) <==> AllHold(w, pos, neg, c, part)
  {
    hide Ranged, IsDeduped, BodyBinds, Holds, AtomVars;
    forall x | x in c
      ensures Holds(w, pos, neg, x, env) <==> Holds(w, pos, neg, x, part)
    {
      forall s | s in AtomVars(x)
        ensures (s in env <==> s in part) && (s in env ==> env[s] == part[s])
      {
        if s in BodyBinds(extra) {
          ExtraApart(c, hi, head, newHead, extra, s);
        }
      }
      HoldsFrame(w, pos, neg, x, env, part);
    }
  }

  /** A row of the normalised rule is a row of the alternative. */
  lemma RuleInAlt(w: World, pos: DB<Symbol>, neg: DB<Symbol>, c: Conj, hi: nat, head: seq<Symbol>, newHead: seq<Symbol>, extra: Conj, env: Env)
    requires Ranged(c, 0, hi) && IsDeduped(head, newHead, extra) && UserHead(head)
    requires env.Keys == BodyBinds(c) + BodyBinds(extra) && AllHold(w, pos, neg, c + extra, env) && Bound(newHead, env)
    ensures exists user :: AltYields(w, pos, neg, c, head, user, Row(newHead, env))
  {
    hide Ranged, IsDeduped, BodyBinds, Holds, IsUser;
    var part := map s | s in env && s in BodyBinds(c) :: env[s];
    var user := map s | s in env && s in BodyBinds(c) && IsUser(s) :: env[s];
    assert forall x :: x in c ==> x in c + extra;
    assert forall x :: x in extra ==> x in c + extra;
    HoldsInPart(w, pos, neg, c, hi, head, newHead, extra, env, part);
    assert Extends(c, user, part);
    DedupMeans(w, pos, neg, head, newHead, extra, env);
    forall i | 0 <= i < |head|
      ensures head[i] in user
    {
      if head[i] in BodyBinds(extra) {
        ExtraApart(c, hi, head, newHead, extra, head[i]);
      }
    }
    assert Row(head, user) == Row(head, env);
    assert AltYields(w, pos, neg, c, head, user, Row(newHead, env));
  }

  /** The column that a new head variable stands in. */
  ghost function ColumnOf(head: seq<Symbol>, s: Symbol): (i: nat)
    requires IsRenamed(head, s)
    ensures i < |head| && !IsFirst(head, i) && HeadAt(head, i) == s
  {
    var i: nat :| i < |head| && !IsFirst(head, i) && HeadAt(head, i) == s;
    i
  }

  /** The values of the new head variables. */
  ghost function HeadValues(head: seq<Symbol>, env: Env): Env
    requires Bound(head, env)
  {
    var news := set i | 0 <= i < |head| && !IsFirst(head, i) :: HeadAt(head, i);
    map s | s in news && IsRenamed(head, s) :: env[head[ColumnOf(head, s)]]
  }

  lemma HeadValueAt(head: seq<Symbol>, env: Env, i: nat)
    requires Bound(head, env) && UserHead(head) && i < |head| && !IsFirst(head, i)
    ensures HeadAt(head, i) in HeadValues(head, env) && HeadValues(head, env)[HeadAt(head, i)] == env[head[i]]
  {
    hide HeadAt, IsFirst, ColumnOf;
    var j := ColumnOf(head, HeadAt(head, i));
    if j < i {
      HeadDistinct(head, j, i);
    } else if i < j {
      HeadDistinct(head, i, j);
    }
  }

  lemma HeadValueKeys(head: seq<Symbol>, newHead: seq<Symbol>, extra: Conj, env: Env)
    requires Bound(head, env) && IsDeduped(head, newHead, extra)
    ensures HeadValues(head, env).Keys == BodyBinds(extra)
  {
    hide HeadAt, IsFirst, IsDeduped, BodyBinds;
    forall s
      ensures s in HeadValues(head, env) <==> s in BodyBinds(extra)
    {
      ExtraBinds(head, newHead, extra, s);
    }
  }

  lemma ExtraHolds(w: World, pos: DB<Symbol>, neg: DB<Symbol>, head: seq<Symbol>, newHead: seq<Symbol>, extra: Conj, env: Env)
    requires IsDeduped(head, newHead, extra) && Bound(head, env)
    requires forall i: nat :: i < |head| && !IsFirst(head, i) ==> HeadAt(head, i) in env && env[HeadAt(head, i)] == env[head[i]]
    ensures AllHold(w, pos, neg, extra, env) && Bound(newHead, env)
  {
    hide HeadAt;
    forall x | x in extra
      ensures Holds(w, pos, neg, x, env)
    {
      var i: nat :| i < |head| && !IsFirst(head, i) && x == Unification(HeadAt(head, i), Binding(head[i], None), false);
    }
    forall i | 0 <= i < |newHead|
      ensures newHead[i] in env
    {
      FirstStays(head, i);
    }
  }

  lemma FirstStays(head: seq<Symbol>, i: nat)
    requires i < |head|
    ensures IsFirst(head, i) ==> HeadAt(head, i) == head[i]
  {
  }

  /** And the other way round. */
  lemma AltInRule(w: World, pos: DB<Symbol>, neg: DB<Symbol>, c: Conj, hi: nat, head: seq<Symbol>, newHead: seq<Symbol>, extra: Conj, user: Env, t: Tuple)
    requires Ranged(c, 0, hi) && IsDeduped(head, newHead, extra) && UserHead(head) && AltYields(w, pos, neg, c, head, user, t)
    ensures exists env: Env :: env.Keys == BodyBinds(c) + BodyBinds(extra) && AllHold(w, pos, neg, c + extra, env) && Bound(newHead, env) && t == Row(newHead, env)
  {
    hide Ranged, IsDeduped, BodyBinds, Holds, HeadAt, IsFirst;
    var part :| Extends(c, user, part) && AllHold(w, pos, neg, c, part);
    PartKeys(c, user, part);
    var values := HeadValues(head, user);
    HeadValueKeys(head, newHead, extra, user);
    var env := part + values;
    Apart(c, hi, head, newHead, extra);
    HoldsInPart(w, pos, neg, c, hi, head, newHead, extra, env, part);
    forall i: nat | i < |head| && !IsFirst(head, i)
      ensures HeadAt(head, i) in env && env[HeadAt(head, i)] == env[head[i]]
    {
      HeadValueAt(head, user, i);
    }
    ExtraHolds(w, pos, neg, head, newHead, extra, env);
    DedupMeans(w, pos, neg, head, newHead, extra, env);
    assert Row(head, env) == Row(head, user);
    assert AllHold(w, pos, neg, c + extra, env);
  }

  lemma PartKeys(c: Conj, user: Env, part: Env)
    requires user.Keys == UserBinds(c) && Extends(c, user, part)
    ensures part.Keys == BodyBinds(c)
  {
    hide BodyBinds, IsUser;
  }

  lemma Apart(c: Conj, hi: nat, head: seq<Symbol>, newHead: seq<Symbol>, extra: Conj)
    requires Ranged(c, 0, hi) && IsDeduped(head, newHead, extra)
    ensures BodyBinds(c) !! BodyBinds(extra)
  {
    hide Ranged, IsDeduped;
    forall l, s | 0 <= l < |c| && s in Binds(c[l])
      ensures s !in BodyBinds(extra)
    {
      assert c[l] in c && s in AtomVars(c[l]);
      if s in BodyBinds(extra) {
        ExtraApart(c, hi, head, newHead, extra, s);
      }
    }
  }

  /** The rule made of an alternative yields exactly the rows of the alternative. */
  lemma AlternativeRows(w: World, pos: DB<Symbol>, neg: DB<Symbol>, c: Conj, hi: nat, head: seq<Symbol>, newHead: seq<Symbol>, extra: Conj,
                        aggr: seq<Option<Aggregation>>, t: Tuple)
    requires Ranged(c, 0, hi) && IsDeduped(head, newHead, extra) && UserHead(head)
    ensures (exists env :: RuleYields(w, pos, neg, InlineRule(newHead, aggr, Reordered(c + extra)), env, t)) <==>
            (exists user :: AltYields(w, pos, neg, c, head, user, t))
  {
    hide Ranged, IsDeduped, BodyBinds, Holds, Reordered, AltYields, UserHead;
    var r := InlineRule(newHead, aggr, Reordered(c + extra));
    ReorderPermutes(c + extra);
    PermutedBinds(r.body, c + extra);
    BindsBoth(c, extra);
    if env :| RuleYields(w, pos, neg, r, env, t) {
      HoldsAllOf(w, pos, neg, r.body, env);
      RuleInAlt(w, pos, neg, c, hi, head, newHead, extra, env);
    }
    if user :| AltYields(w, pos, neg, c, head, user, t) {
      AltInRule(w, pos, neg, c, hi, head, newHead, extra, user, t);
      var env: Env :| env.Keys == BodyBinds(c) + BodyBinds(extra) && AllHold(w, pos, neg, c + extra, env) && Bound(newHead, env) && t == Row(newHead, env);
      HoldsAllOf(w, pos, neg, r.body, env);
      assert RuleYields(w, pos, neg, r, env, t);
    }
  }

  lemma HoldsAllOf(w: World, pos: DB<Symbol>, neg: DB<Symbol>, body: Body, env: Env)
    ensures AllHold(w, pos, neg, body, env) <==> forall i :: 0 <= i < |body| ==> Holds(w, pos, neg, body[i], env)
  {
    hide Holds;
    assert forall i :: 0 <= i < |body| ==> body[i] in body;
  }

  // ----- the rows of a source rule -----

  /** The alternative binds the head and whatever it shares with the other variables of the rule. */
  ghost predicate Covers(c: Conj, head: seq<Symbol>, vars: set<Symbol>) {
    && UserBinds(c) <= vars
    && (forall i :: 0 <= i < |head| ==> head[i] in UserBinds(c))
    && forall x, s :: x in c && s in AtomVars(x) && s in vars ==> s in UserBinds(c)
  }

  ghost function Restricted(env: Env, vars: set<Symbol>): Env {
    map s | s in env && s in vars :: env[s]
  }

  lemma CoveredPart(c: Conj, head: seq<Symbol>, vars: set<Symbol>, env: Env, whole: Env, x: Atom<Symbol>, s: Symbol)
    requires Covers(c, head, vars) && env.Keys == vars && Extends(c, env, whole) && x in c && s in AtomVars(x) && s in whole
    ensures s in BodyBinds(c)
  {
    hide BodyBinds, IsUser, AtomVars;
  }

  /** Values of variables that the alternative does not have make no difference to it. */
  lemma CoveredFrame(w: World, pos: DB<Symbol>, neg: DB<Symbol>, c: Conj, head: seq<Symbol>, vars: set<Symbol>, env: Env)
    requires Covers(c, head, vars) && env.Keys == vars && UserEnv(env)
    ensures Satisfied(w, pos, neg, c, env) <==> Satisfied(w, pos, neg, c, Restricted(env, UserBinds(c)))
  {
    hide BodyBinds, IsUser, AtomVars, Holds;
    var part := Restricted(env, UserBinds(c));
    if whole :| Extends(c, env, whole) && AllHold(w, pos, neg, c, whole) {
      var rest := Restricted(whole, BodyBinds(c));
      PartHolds(w, pos, neg, c, head, vars, env, whole, rest);
      assert Extends(c, part, rest);
    }
    if rest :| Extends(c, part, rest) && AllHold(w, pos, neg, c, rest) {
      var whole := env + rest;
      assert Extends(c, env, whole);
      assert Restricted(whole, BodyBinds(c)) == rest;
      PartHolds(w, pos, neg, c, head, vars, env, whole, rest);
    }
  }

  lemma PartHolds(w: World, pos: DB<Symbol>, neg: DB<Symbol>, c: Conj, head: seq<Symbol>, vars: set<Symbol>, env: Env, whole: Env, rest: Env)
    requires Covers(c, head, vars) && env.Keys == vars && Extends(c, env, whole) && rest == Restricted(whole, BodyBinds(c))
    ensures AllHold(w, pos, neg, c, whole) <==> AllHold(w, pos, neg, c, rest)
  {
    hide BodyBinds, AtomVars, Holds, Covers, Extends;
    forall x | x in c
      ensures Holds(w, pos, neg, x, whole) <==> Holds(w, pos, neg, x, rest)
    {
      forall s | s in AtomVars(x)
        ensures (s in whole <==> s in rest) && (s in whole ==> whole[s] == rest[s])
      {
        if s in whole {
          CoveredPart(c, head, vars, env, whole, x, s);
        }
      }
      HoldsFrame(w, pos, neg, x, whole, rest);
    }
  }

  /** The source rule yields the row: values of its variables under which the body holds, and the head under them. */
  ghost predicate SourceYields(w: World, pos: DB<Symbol>, neg: DB<Symbol>, head: seq<Symbol>, body: InputAtom, vars: set<Symbol>, env: Env, t: Tuple) {
    env.Keys == vars && Sat(w, pos, neg, body, env) && Bound(head, env) && t == Row(head, env)
  }

  ghost predicate SomeRuleYields(w: World, pos: DB<Symbol>, neg: DB<Symbol>, rules: seq<InlineRule<Symbol>>, t: Tuple) {
    exists i, env :: 0 <= i < |rules| && RuleYields(w, pos, neg, rules[i], env, t)
  }

  /** The normal form of a source rule, its head made distinct, and each alternative covering what it shares. */
  ghost predicate IsSource(ops: Ops, head: seq<Symbol>, body: InputAtom, vars: set<Symbol>, newHead: seq<Symbol>, extra: Conj, alts: Alternatives) {
    && UserAtom(body) && UserHead(head) && (forall s :: s in vars ==> IsUser(s)) && IsDeduped(head, newHead, extra)
    && Nnf(body).Success? && Dnf(ops, Nnf(body).value, 0).Success? && alts == Dnf(ops, Nnf(body).value, 0).value.alts
    && forall c :: c in alts ==> Covers(c, head, vars)
  }

  /** An assignment under which an alternative holds, with the row of the head. */
  ghost predicate FoundAt(w: World, pos: DB<Symbol>, neg: DB<Symbol>, head: seq<Symbol>, vars: set<Symbol>, alts: Alternatives, env: Env, t: Tuple) {
    env.Keys == vars && SomeSatisfied(w, pos, neg, alts, env) && Bound(head, env) && t == Row(head, env)
  }

  /** The rules that a source rule is turned into yield all its rows. Whatever they yield they find at an assignment, and it is a
      row of the source rule there, if under that assignment folding the predicates forgets nothing. */
  lemma SourceRows(w: World, pos: DB<Symbol>, neg: DB<Symbol>, head: seq<Symbol>, aggr: seq<Option<Aggregation>>, body: InputAtom, vars: set<Symbol>,
                   newHead: seq<Symbol>, extra: Conj, alts: Alternatives, rules: seq<InlineRule<Symbol>>, t: Tuple)
    requires NegateIs(w.ops) && IsSource(w.ops, head, body, vars, newHead, extra, alts) && IsNormalized(alts, aggr, newHead, extra, rules)
    ensures (exists env :: SourceYields(w, pos, neg, head, body, vars, env, t)) ==> SomeRuleYields(w, pos, neg, rules, t)
    ensures SomeRuleYields(w, pos, neg, rules, t) <==> exists env :: FoundAt(w, pos, neg, head, vars, alts, env, t)
    ensures forall env :: FoundAt(w, pos, neg, head, vars, alts, env, t) && TypesKept(w, body, false, env) ==>
              SourceYields(w, pos, neg, head, body, vars, env, t)
  {
    hide NegateIs, IsSource, TypesKept, Reordered, RuleYields, SourceYields, FoundAt;
    forall env | SourceYields(w, pos, neg, head, body, vars, env, t)
      ensures FoundAt(w, pos, neg, head, vars, alts, env, t)
    {
      SourceIsFound(w, pos, neg, head, body, vars, newHead, extra, alts, env, t);
    }
    if env :| FoundAt(w, pos, neg, head, vars, alts, env, t) {
      var c := RuleOfSource(w, pos, neg, head, aggr, body, vars, newHead, extra, alts, env, t);
      var i :| 0 <= i < |alts| && alts[i] == c;
      var env' :| RuleYields(w, pos, neg, InlineRule(newHead, aggr, Reordered(c + extra)), env', t);
      assert RuleYields(w, pos, neg, rules[i], env', t);
    }
    if SomeRuleYields(w, pos, neg, rules, t) {
      var i, env :| 0 <= i < |rules| && RuleYields(w, pos, neg, rules[i], env, t);
      SourceOfRule(w, pos, neg, head, aggr, body, vars, newHead, extra, alts, alts[i], t);
    }
    forall env | FoundAt(w, pos, neg, head, vars, alts, env, t) && TypesKept(w, body, false, env)
      ensures SourceYields(w, pos, neg, head, body, vars, env, t)
    {
      FoundIsSource(w, pos, neg, head, body, vars, newHead, extra, alts, env, t);
    }
  }

  lemma SourceIsFound(w: World, pos: DB<Symbol>, neg: DB<Symbol>, head: seq<Symbol>, body: InputAtom, vars: set<Symbol>,
                      newHead: seq<Symbol>, extra: Conj, alts: Alternatives, env: Env, t: Tuple)
    requires NegateIs(w.ops) && IsSource(w.ops, head, body, vars, newHead, extra, alts) && SourceYields(w, pos, neg, head, body, vars, env, t)
    ensures FoundAt(w, pos, neg, head, vars, alts, env, t)
  {
    hide NegateIs, UserAtom, UserHead, Nnf, Dnf, IsDeduped, IsUser, TypesKept, Sat, Covers, SomeSatisfied;
    NormalFormMeans(w, pos, neg, body, env);
  }

  lemma FoundIsSource(w: World, pos: DB<Symbol>, neg: DB<Symbol>, head: seq<Symbol>, body: InputAtom, vars: set<Symbol>,
                      newHead: seq<Symbol>, extra: Conj, alts: Alternatives, env: Env, t: Tuple)
    requires NegateIs(w.ops) && IsSource(w.ops, head, body, vars, newHead, extra, alts) && FoundAt(w, pos, neg, head, vars, alts, env, t)
    requires TypesKept(w, body, false, env)
    ensures SourceYields(w, pos, neg, head, body, vars, env, t)
  {
    hide NegateIs, UserAtom, UserHead, Nnf, Dnf, IsDeduped, IsUser, TypesKept, Sat, Covers, SomeSatisfied;
    NormalFormMeans(w, pos, neg, body, env);
  }

  /** The values of the alternative's variables, and any values for the rest. */
  lemma SourceOfRule(w: World, pos: DB<Symbol>, neg: DB<Symbol>, head: seq<Symbol>, aggr: seq<Option<Aggregation>>, body: InputAtom, vars: set<Symbol>,
                     newHead: seq<Symbol>, extra: Conj, alts: Alternatives, c: Conj, t: Tuple)
    requires IsSource(w.ops, head, body, vars, newHead, extra, alts) && c in alts
    requires exists env :: RuleYields(w, pos, neg, InlineRule(newHead, aggr, Reordered(c + extra)), env, t)
    ensures exists env :: FoundAt(w, pos, neg, head, vars, alts, env, t)
  {
    hide UserAtom, UserHead, Nnf, Dnf, IsDeduped, IsUser, Reordered, Ranged, RuleYields, Satisfied, UserBinds, AtomVars;
    var hi := AltRanged(w.ops, body, c);
    AlternativeRows(w, pos, neg, c, hi, head, newHead, extra, aggr, t);
    var user :| AltYields(w, pos, neg, c, head, user, t);
    var env := map s | s in vars :: if s in user then user[s] else Null;
    assert Covers(c, head, vars);
    assert Restricted(env, UserBinds(c)) == user;
    CoveredFrame(w, pos, neg, c, head, vars, env);
    assert SomeSatisfied(w, pos, neg, alts, env);
    assert Row(head, env) == Row(head, user);
    assert FoundAt(w, pos, neg, head, vars, alts, env, t);
  }

  lemma RuleOfSource(w: World, pos: DB<Symbol>, neg: DB<Symbol>, head: seq<Symbol>, aggr: seq<Option<Aggregation>>, body: InputAtom, vars: set<Symbol>,
                     newHead: seq<Symbol>, extra: Conj, alts: Alternatives, env: Env, t: Tuple) returns (c: Conj)
    requires IsSource(w.ops, head, body, vars, newHead, extra, alts) && FoundAt(w, pos, neg, head, vars, alts, env, t)
    ensures c in alts && exists env' :: RuleYields(w, pos, neg, InlineRule(newHead, aggr, Reordered(c + extra)), env', t)
  {
    hide UserAtom, UserHead, Nnf, Dnf, IsDeduped, IsUser, Reordered, Ranged, RuleYields, Satisfied, UserBinds, AtomVars;
    c :| c in alts && Satisfied(w, pos, neg, c, env);
    var hi := AltRanged(w.ops, body, c);
    var user := Restricted(env, UserBinds(c));
    assert Covers(c, head, vars);
    CoveredFrame(w, pos, neg, c, head, vars, env);
    assert Row(head, env) == Row(head, user);
    assert AltYields(w, pos, neg, c, head, user, t);
    AlternativeRows(w, pos, neg, c, hi, head, newHead, extra, aggr, t);
  }

  lemma AltRanged(ops: Ops, body: InputAtom, c: Conj) returns (hi: nat)
    requires UserAtom(body) && Nnf(body).Success? && Dnf(ops, Nnf(body).value, 0).Success? && c in Dnf(ops, Nnf(body).value, 0).value.alts
    ensures Ranged(c, 0, hi)
  {
    hide UserAtom, Nnf, Dnf, Ranged, TypesKept, PredicatesRemember;
    NnfKeeps(World(ops, (_, _) => iset{}, (_, _) => iset{}), body, map[]);
    DnfRanged(ops, Nnf(body).value, 0);
    hi := Dnf(ops, Nnf(body).value, 0).value.next;
  }

  // ----- what the later stages need -----

  lemma NormalizedDistinct(a: InputAtom, negated: bool, g: nat)
    requires IsApplication(a) && UserArgs(a.inputs)
    ensures AllArgsDistinct(Normalized(a, negated, g))
  {
    hide NameAt, UserArgs;
    var args := a.inputs;
    forall x | x in Normalized(a, negated, g)
      ensures ArgsDistinct(x)
    {
      if x in Unifies(args, g, |args|) {
        UnifiesAre(args, g, |args|, x);
      } else {
        forall i, j | 0 <= i < j < |args|
          ensures Names(args, g)[i] != Names(args, g)[j]
        {
          NamesDistinct(args, g, i, j);
        }
      }
    }
  }

  /** No application in a normal form has a variable twice. */
  lemma {:induction false} DnfDistinct(ops: Ops, a: InputAtom, g: nat)
    requires UserAtom(a) && Dnf(ops, a, g).Success?
    ensures forall c :: c in Dnf(ops, a, g).value.alts ==> AllArgsDistinct(c)
    decreases a, 1
  {
    hide Normalized, Counter, Folded, Vars, IsUser, DnfAnd, DnfOr;
    match a
    case InputRule(_, _) => NormalizedDistinct(a, false, g);
    case InputRelation(_, _, _) => NormalizedDistinct(a, false, g);
    case Negation(b) => NormalizedDistinct(b, true, g);
    case Conjunction(bs) => DnfAndDistinct(ops, bs, g);
    case Disjunction(bs) => DnfOrDistinct(ops, bs, g);
    case _ =>
  }

  lemma {:induction false} DnfAndDistinct(ops: Ops, bs: seq<InputAtom>, g: nat)
    requires bs != [] && AllUser(bs) && DnfAnd(ops, bs, g).Success?
    ensures forall c :: c in DnfAnd(ops, bs, g).value.alts ==> AllArgsDistinct(c)
    decreases bs, 0
  {
    hide Dnf, UserAtom, Cross, ArgsDistinct;
    EachUser(bs);
    if |bs| == 1 {
      DnfDistinct(ops, bs[0], g);
    } else {
      var n := |bs| - 1;
      EachUser(bs[..n]);
      DnfAndDistinct(ops, bs[..n], g);
      var l := DnfAnd(ops, bs[..n], g).value;
      DnfDistinct(ops, bs[n], l.next);
      var r := Dnf(ops, bs[n], l.next).value;
      forall c | c in Cross(l.alts, r.alts)
        ensures AllArgsDistinct(c)
      {
        CrossHas(l.alts, r.alts, c);
        var x, y :| x in l.alts && y in r.alts && c == x + y;
      }
    }
  }

  lemma {:induction false} DnfOrDistinct(ops: Ops, bs: seq<InputAtom>, g: nat)
    requires AllUser(bs) && DnfOr(ops, bs, g).Success?
    ensures forall c :: c in DnfOr(ops, bs, g).value.alts ==> AllArgsDistinct(c)
    decreases bs, 0
  {
    hide Dnf, UserAtom, ArgsDistinct, AllArgsDistinct;
    EachUser(bs);
    if bs != [] {
      var n := |bs| - 1;
      EachUser(bs[..n]);
      DnfOrDistinct(ops, bs[..n], g);
      DnfDistinct(ops, bs[n], DnfOr(ops, bs[..n], g).value.next);
    }
  }

  /** Each rule made of a source rule is what the later stages take: in order, with its head bound and distinct, and with distinct
      arguments. It compiles exactly if its applications fit, and no variable that nothing binds stands in a negated stored relation
      and in a later negated atom. */
  lemma NormalizedReady(ops: Ops, head: seq<Symbol>, aggr: seq<Option<Aggregation>>, body: InputAtom, vars: set<Symbol>,
                        newHead: seq<Symbol>, extra: Conj, alts: Alternatives, c: Conj, names: set<Symbol>, cat: Catalog, arities: map<Symbol, nat>)
    requires IsSource(ops, head, body, vars, newHead, extra, alts) && c in alts && Succeeds(c + extra)
    ensures var r := InlineRule(newHead, aggr, Reordered(c + extra));
            && RuleReady(r, names) && GoodOrder(r.body) && AllArgsDistinct(r.body) && Distinct(r.head)
            && (Compiles(cat, arities, r) <==> AllFit(cat, arities, r.body) && !SharesSome(r.body))
  {
    hide UserAtom, Nnf, Dnf, IsUser, Succeeds, Reordered, BodyBinds, GoodOrder, WellOrdered, IsFirst, HeadAt, SharesSome, Compiles, AllFit, AllArgsDistinct,
         ArgsDistinct;
    var out := Reordered(c + extra);
    ReorderedIsOrdered(c + extra);
    GoodIsWellOrdered(out);
    ReorderPermutes(c + extra);
    PermutedBinds(out, c + extra);
    BindsBoth(c, extra);
    AltDistinct(ops, body, c);
    OutDistinct(c, extra, head, newHead, out);
    NewHeadBound(c, head, newHead, extra);
    forall i, j | 0 <= i < j < |newHead|
      ensures newHead[i] != newHead[j]
    {
      HeadDistinct(head, i, j);
    }
    DistinctApplications(out);
    CompilesIff(cat, arities, InlineRule(newHead, aggr, out));
  }

  lemma DistinctApplications(body: Body)
    requires AllArgsDistinct(body)
    ensures forall i, k, l :: 0 <= i < |body| && body[i].Rule? && 0 <= k < l < |body[i].args| ==> body[i].args[k] != body[i].args[l]
  {
    forall i, k, l | 0 <= i < |body| && body[i].Rule? && 0 <= k < l < |body[i].args|
      ensures body[i].args[k] != body[i].args[l]
    {
      assert body[i] in body;
    }
  }

  lemma AltDistinct(ops: Ops, body: InputAtom, c: Conj)
    requires UserAtom(body) && Nnf(body).Success? && Dnf(ops, Nnf(body).value, 0).Success? && c in Dnf(ops, Nnf(body).value, 0).value.alts
    ensures AllArgsDistinct(c)
  {
    hide UserAtom, Nnf, Dnf, AllArgsDistinct;
    NnfKeeps(World(ops, (_, _) => iset{}, (_, _) => iset{}), body, map[]);
    DnfDistinct(ops, Nnf(body).value, 0);
  }

  lemma OutDistinct(c: Conj, extra: Conj, head: seq<Symbol>, newHead: seq<Symbol>, out: Body)
    requires AllArgsDistinct(c) && IsDeduped(head, newHead, extra) && forall x :: x in out <==> x in c + extra
    ensures AllArgsDistinct(out)
  {
    hide HeadAt, IsFirst;
    forall x | x in out
      ensures ArgsDistinct(x)
    {
      assert x in c || x in extra;
    }
  }

  lemma NewHeadBound(c: Conj, head: seq<Symbol>, newHead: seq<Symbol>, extra: Conj)
    requires IsDeduped(head, newHead, extra) && forall i :: 0 <= i < |head| ==> head[i] in UserBinds(c)
    ensures forall i :: 0 <= i < |newHead| ==> newHead[i] in BodyBinds(c) + BodyBinds(extra)
  {
    hide BodyBinds, HeadAt, IsFirst, IsUser;
    forall i | 0 <= i < |newHead|
      ensures newHead[i] in BodyBinds(c) + BodyBinds(extra)
    {
      FirstStays(head, i);
      ExtraBinds(head, newHead, extra, newHead[i]);
    }
  }

  /** The rules that a source rule is turned into are what a query takes, exactly if it has alternatives and no meet aggregation. */
  lemma SourceWellFormed(ops: Ops, head: seq<Symbol>, aggr: seq<Option<Aggregation>>, body: InputAtom, vars: set<Symbol>,
                         newHead: seq<Symbol>, extra: Conj, alts: Alternatives, rules: seq<InlineRule<Symbol>>, names: set<Symbol>)
    requires IsSource(ops, head, body, vars, newHead, extra, alts) && IsNormalized(alts, aggr, newHead, extra, rules)
    requires forall c :: c in alts ==> Succeeds(c + extra)
    ensures RulesWellFormed(rules, names) <==> rules != [] && KindOf(aggr) != Meet
  {
    hide IsSource, Succeeds, Reordered, RuleReady, Compiles, SharesSome, KindOf, Distinct, GoodOrder, AllArgsDistinct, AllFit;
    forall i | 0 <= i < |rules|
      ensures rules[i].aggr == aggr && rules[i].head == newHead && RuleReady(rules[i], names) && Distinct(rules[i].head)
      ensures GoodOrder(rules[i].body) && AllArgsDistinct(rules[i].body)
    {
      assert alts[i] in alts;
      NormalizedReady(ops, head, aggr, body, vars, newHead, extra, alts, alts[i], names, Catalog(map[], _ => 0), map[]);
    }
  }

  /** The body that does not compile is one that reordering accepts. */
  lemma SharedNegationAccepted(cat: Catalog, arities: map<Symbol, nat>, head: seq<Symbol>, aggr: seq<Option<Aggregation>>)
    ensures Succeeds(SharedNegation()) && !Compiles(cat, arities, InlineRule(head, aggr, SharedNegation()))
  {
    hide Succeeds, Compiles;
    SharedNegationFails(cat, arities, head, aggr);
    var body := SharedNegation();
    assert Binds(body[0]) == {"x"} by { assert body[0].args == ["x"]; }
    BodyBindsStep(body, 0);
    BodyBindsPrefix(body, 1);
    assert "x" in BodyBinds(body);
    assert body[1].args[0] == "x" && body[2].args[0] == "x";
    assert "x" in Negates(body[1]) * BodyBinds(body) && "x" in Negates(body[2]) * BodyBinds(body);
    OrderedSucceeds(body);
  }
}
