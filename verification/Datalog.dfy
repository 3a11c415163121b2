/** What a program means: least models over satisfying assignments. */
module Datalog {
  import opened Wrappers
  import opened Values
  import opened Exprs
  import opened Program

  type Env = map<Symbol, DataValue>

  datatype Fact<S> = Fact(name: S, tuple: Tuple)

  type DB<!S(==)> = iset<Fact<S>>

  /** What a query reads besides its own rules: operators, stored relations and index searches. */
  datatype World = World(
    ops: Ops,
    stored: (Symbol, Option<i64>) -> iset<Tuple>,
    search: (string, DataValue) -> iset<Tuple>)

  ghost predicate Bound(args: seq<Symbol>, env: Env) {
    forall i :: 0 <= i < |args| ==> args[i] in env
  }

  function Row(args: seq<Symbol>, env: Env): (t: Tuple)
    requires forall i :: 0 <= i < |args| ==> args[i] in env
    ensures |t| == |args|
  {
    seq(|args|, i requires 0 <= i < |args| => env[args[i]])
  }

  /** The tuple agrees with the arguments that have a value. */
  predicate Matches(args: seq<Symbol>, t: Tuple, env: Env) {
    |t| == |args| && forall i :: 0 <= i < |args| && args[i] in env ==> t[i] == env[args[i]]
  }

  /** Rules applied positively read `pos`; negated ones read `neg`, which holds the completed relations. */
  ghost predicate Holds<S(!new)>(w: World, pos: DB<S>, neg: DB<S>, a: Atom<S>, env: Env) {
    match a
    case Rule(name, args) => Bound(args, env) && Fact(name, Row(args, env)) in pos
    case NegatedRule(name, args) => !exists t :: Fact(name, t) in neg && Matches(args, t, env)
    case Relation(rel, args, at) => Bound(args, env) && Row(args, env) in w.stored(rel, at)
    case NegatedRelation(rel, args, at) => !exists t :: t in w.stored(rel, at) && Matches(args, t, env)
    case Predicate(e) => EvalIn(w.ops, e, env) == Success(Bool(true))
    case Unification(b, e, oneMany) =>
      b in env &&
      var v := EvalIn(w.ops, e, env);
      v.Success? && if oneMany then v.value.List? && env[b] in v.value.items else v.value == env[b]
    case Search(spec, q, bs) => q in env && Bound(bs, env) && Row(bs, env) in w.search(spec, env[q])
  }

  ghost predicate BodyHolds<S(!new)>(w: World, pos: DB<S>, neg: DB<S>, body: seq<Atom<S>>, env: Env) {
    env.Keys == BodyBinds(body) && forall i :: 0 <= i < |body| ==> Holds(w, pos, neg, body[i], env)
  }

  ghost predicate AllHold<S(!new)>(w: World, pos: DB<S>, neg: DB<S>, atoms: seq<Atom<S>>, env: Env) {
    forall a :: a in atoms ==> Holds(w, pos, neg, a, env)
  }

  type Rules<!S(==)> = map<S, RulesOrFixed<S>>

  ghost predicate HasRule<S(!new)>(p: Rules<S>, name: S, r: InlineRule<S>) {
    name in p && p[name].Rules? && r in p[name].rules
  }

  /** The rule, under the assignment, yields the fact. */
  ghost predicate Yields<S(!new)>(w: World, pos: DB<S>, neg: DB<S>, r: InlineRule<S>, env: Env, t: Tuple) {
    IsPlain(r) && BodyHolds(w, pos, neg, r.body, env) && Bound(r.head, env) && t == Row(r.head, env)
  }

  ghost predicate Derives<S(!new)>(w: World, p: Rules<S>, pos: DB<S>, neg: DB<S>, f: Fact<S>) {
    exists r, env :: HasRule(p, f.name, r) && Yields(w, pos, neg, r, env, f.tuple)
  }

  /** Contains the completed relations and every consequence of itself. */
  ghost predicate IsModel<S(!new)>(w: World, p: Rules<S>, base: DB<S>, m: DB<S>) {
    base <= m && forall f :: Derives(w, p, m, base, f) ==> f in m
  }

  ghost predicate InEveryModel<S(!new)>(w: World, p: Rules<S>, base: DB<S>, f: Fact<S>) {
    forall m :: IsModel(w, p, base, m) ==> f in m
  }

  /** The facts of a stratum: what every model contains. */
  ghost function Least<S(!new)>(w: World, p: Rules<S>, base: DB<S>): DB<S> {
    iset f: Fact<S> | InEveryModel(w, p, base, f)
  }

  lemma HoldsMonotone<S(!new)>(w: World, pos: DB<S>, pos': DB<S>, neg: DB<S>, a: Atom<S>, env: Env)
    requires pos <= pos' && Holds(w, pos, neg, a, env)
    ensures Holds(w, pos', neg, a, env)
  {
  }

  lemma DerivesMonotone<S(!new)>(w: World, p: Rules<S>, pos: DB<S>, pos': DB<S>, neg: DB<S>, f: Fact<S>)
    requires pos <= pos' && Derives(w, p, pos, neg, f)
    ensures Derives(w, p, pos', neg, f)
  {
    var r, env :| HasRule(p, f.name, r) && Yields(w, pos, neg, r, env, f.tuple);
    forall i | 0 <= i < |r.body|
      ensures Holds(w, pos', neg, r.body[i], env)
    {
      HoldsMonotone(w, pos, pos', neg, r.body[i], env);
    }
    assert Yields(w, pos', neg, r, env, f.tuple);
  }

  /** The least model is a model, contained in every other. */
  lemma LeastIsModel<S(!new)>(w: World, p: Rules<S>, base: DB<S>)
    ensures IsModel(w, p, base, Least(w, p, base))
  {
    var l := Least(w, p, base);
    forall f | Derives(w, p, l, base, f)
      ensures f in l
    {
      forall m | IsModel(w, p, base, m)
        ensures f in m
      {
        DerivesMonotone(w, p, l, m, base, f);
      }
    }
  }

  lemma LeastInModel<S(!new)>(w: World, p: Rules<S>, base: DB<S>, m: DB<S>)
    requires IsModel(w, p, base, m)
    ensures Least(w, p, base) <= m
  {
  }

  /** All the variables of an atom. */
  ghost function AtomVars<S>(a: Atom<S>): set<Symbol> {
    Binds(a) + Uses(a) + Negates(a)
  }

  lemma RowFrame(args: seq<Symbol>, env: Env, env': Env)
    requires forall i :: 0 <= i < |args| ==> AgreeOn({args[i]}, env, env')
    ensures Bound(args, env) <==> Bound(args, env')
    ensures Bound(args, env) ==> Row(args, env) == Row(args, env')
    ensures forall t :: Matches(args, t, env) <==> Matches(args, t, env')
  {
    assert forall i :: 0 <= i < |args| ==> args[i] in {args[i]};
  }

  /** Whether an atom holds only depends on its own variables. */
  lemma HoldsFrame<S(!new)>(w: World, pos: DB<S>, neg: DB<S>, a: Atom<S>, env: Env, env': Env)
    requires AgreeOn(AtomVars(a), env, env')
    ensures Holds(w, pos, neg, a, env) <==> Holds(w, pos, neg, a, env')
  {
    match a
    case Rule(_, args) => RowFrame(args, env, env');
    case NegatedRule(_, args) => RowFrame(args, env, env');
    case Relation(_, args, _) => RowFrame(args, env, env');
    case NegatedRelation(_, args, _) => RowFrame(args, env, env');
    case Predicate(e) => EvalInFrame(w.ops, e, env, env');
    case Unification(b, e, _) =>
      assert b in AtomVars(a);
      EvalInFrame(w.ops, e, env, env');
    case Search(_, q, bs) =>
      assert q in AtomVars(a);
      RowFrame(bs, env, env');
  }

  ghost function Restrict(env: Env, keys: set<Symbol>): Env {
    map s | s in env && s in keys :: env[s]
  }

  lemma HoldsRestrict<S(!new)>(w: World, pos: DB<S>, neg: DB<S>, a: Atom<S>, env: Env, keys: set<Symbol>, all: set<Symbol>)
    requires env.Keys <= all && AtomVars(a) * all <= keys
    ensures Holds(w, pos, neg, a, env) <==> Holds(w, pos, neg, a, Restrict(env, keys))
  {
    HoldsFrame(w, pos, neg, a, env, Restrict(env, keys));
  }
}
