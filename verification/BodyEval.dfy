/** Enumerating the assignments that satisfy a rule body, atom by atom, as the compiled joins do
    (query/compile.rs, query/ra.rs). */
module BodyEval {
  import opened Wrappers
  import opened Values
  import opened Exprs
  import opened Program
  import opened Datalog

  /** What a query reads besides its own rules, as finite tables. */
  datatype Source = Source(
    ops: Ops,
    stored: (Symbol, Option<i64>) -> set<Tuple>,
    search: (string, DataValue) -> set<Tuple>)

  ghost function WorldOf(src: Source): World {
    World(src.ops,
          (r: Symbol, at: Option<i64>) => iset t | t in src.stored(r, at),
          (spec: string, q: DataValue) => iset t | t in src.search(spec, q))
  }

  /** The contents of every relation of a query. */
  type Tables<!S(==)> = map<S, set<Tuple>>

  ghost function Facts<S(!new)>(tabs: Tables<S>): DB<S> {
    iset f: Fact<S> | f.name in tabs && f.tuple in tabs[f.name]
  }

  /** The tuple agrees with the assignment, and with itself on repeated arguments. */
  predicate Joins(args: seq<Symbol>, t: Tuple, env: Env) {
    && |t| == |args|
    && (forall i :: 0 <= i < |args| && args[i] in env ==> t[i] == env[args[i]])
    && (forall i, j :: 0 <= i < j < |args| && args[i] == args[j] ==> t[i] == t[j])
  }

  function First(args: seq<Symbol>, s: Symbol): (i: nat)
    requires s in args
    ensures i < |args| && args[i] == s
  {
    if args[0] == s then 0 else 1 + First(args[1..], s)
  }

  /** The assignment with the arguments set to the tuple. */
  function Assign(args: seq<Symbol>, t: Tuple, env: Env): Env
    requires |t| == |args|
  {
    env + map s | s in args :: t[First(args, s)]
  }

  function Table<S(==)>(tabs: Tables<S>, n: S): set<Tuple> {
    if n in tabs then tabs[n] else {}
  }

  function JoinWith(args: seq<Symbol>, rows: set<Tuple>, env: Env): set<Env> {
    set t | t in rows && Joins(args, t, env) :: Assign(args, t, env)
  }

  /** All ways to set `b` to the value, or to one of its elements. */
  function Unify(v: DataValue, b: Symbol, oneMany: bool, env: Env): set<Env> {
    if oneMany then
      if v.List? then set x | x in v.items && (b in env ==> x == env[b]) :: env[b := x] else {}
    else if b in env && env[b] != v then {} else {env[b := v]}
  }

  /** All ways to extend the assignment so that the atom holds. */
  function Extend<S(==)>(src: Source, pos: Tables<S>, neg: Tables<S>, a: Atom<S>, env: Env): set<Env> {
    match a
    case Rule(n, args) => JoinWith(args, Table(pos, n), env)
    case NegatedRule(n, args) => if exists t :: t in Table(neg, n) && Matches(args, t, env) then {} else {env}
    case Relation(r, args, at) => JoinWith(args, src.stored(r, at), env)
    case NegatedRelation(r, args, at) => if exists t :: t in src.stored(r, at) && Matches(args, t, env) then {} else {env}
    case Predicate(e) => if EvalIn(src.ops, e, env) == Success(Bool(true)) then {env} else {}
    case Unification(b, e, oneMany) =>
      var v := EvalIn(src.ops, e, env);
      if v.Failure? then {} else Unify(v.value, b, oneMany, env)
    case Search(spec, q, bs) => if q in env then JoinWith(bs, src.search(spec, env[q]), env) else {}
  }

  function ExtendAll<S(==)>(src: Source, pos: Tables<S>, neg: Tables<S>, a: Atom<S>, envs: set<Env>): set<Env> {
    set env, env' | env in envs && env' in Extend(src, pos, neg, a, env) :: env'
  }

  /** The assignments that satisfy the first `k` atoms. */
  function Assignments<S(==)>(src: Source, pos: Tables<S>, neg: Tables<S>, body: seq<Atom<S>>, k: nat): set<Env>
    requires k <= |body|
  {
    if k == 0 then {map[]}
    else ExtendAll(src, pos, neg, body[k - 1], Assignments(src, pos, neg, body, k - 1))
  }

  /** The tuples a rule produces. */
  function RuleRows<S(==)>(src: Source, pos: Tables<S>, neg: Tables<S>, r: InlineRule<S>): set<Tuple> {
    set env | env in Assignments(src, pos, neg, r.body, |r.body|) && (forall i :: 0 <= i < |r.head| ==> r.head[i] in env) ::
      Row(r.head, env)
  }

  // ----- correctness -----

  lemma AssignIs(args: seq<Symbol>, t: Tuple, env: Env)
    requires Joins(args, t, env)
    ensures Assign(args, t, env).Keys == env.Keys + set s | s in args
    ensures Bound(args, Assign(args, t, env)) && Row(args, Assign(args, t, env)) == t
    ensures forall s :: s in env ==> Assign(args, t, env)[s] == env[s]
  {
    var r := Assign(args, t, env);
    forall i | 0 <= i < |args|
      ensures r[args[i]] == t[i]
    {
      var j := First(args, args[i]);
      assert args[i] == args[j];
      assert i < j || j < i || i == j;
    }
  }

  /** Joining with a tuple gives the one extension that names it. */
  lemma JoinIs(args: seq<Symbol>, rows: set<Tuple>, env: Env, env': Env)
    ensures env' in JoinWith(args, rows, env) <==>
            && env'.Keys == env.Keys + (set s | s in args)
            && (forall s :: s in env ==> env'[s] == env[s])
            && Row(args, env') in rows
  {
    if env' in JoinWith(args, rows, env) {
      var t :| t in rows && Joins(args, t, env) && env' == Assign(args, t, env);
      AssignIs(args, t, env);
    }
    if && env'.Keys == env.Keys + (set s | s in args)
       && (forall s :: s in env ==> env'[s] == env[s])
       && Row(args, env') in rows {
      JoinedByItsRow(args, env, env');
    }
  }

  lemma JoinedByItsRow(args: seq<Symbol>, env: Env, env': Env)
    requires env'.Keys == env.Keys + (set s | s in args) && forall s :: s in env ==> env'[s] == env[s]
    ensures Joins(args, Row(args, env'), env) && Assign(args, Row(args, env'), env) == env'
  {
    var t := Row(args, env');
    assert Joins(args, t, env);
    AssignIs(args, t, env);
    var env'' := Assign(args, t, env);
    forall s | s in args
      ensures env''[s] == env'[s]
    {
      var i :| 0 <= i < |args| && args[i] == s;
      assert Row(args, env'')[i] == t[i];
    }
  }

  /** Extending by an atom gives exactly the assignments under which it holds. */
  lemma ExtendIs<S(!new)>(src: Source, pos: Tables<S>, neg: Tables<S>, a: Atom<S>, env: Env, env': Env)
    requires Uses(a) <= env.Keys
    ensures env' in Extend(src, pos, neg, a, env) <==>
            && env'.Keys == env.Keys + Binds(a)
            && (forall s :: s in env ==> env'[s] == env[s])
            && Holds(WorldOf(src), Facts(pos), Facts(neg), a, env')
  {
    hide JoinWith, EvalIn, Vars;
    match a
    case Rule(n, args) => JoinIs(args, Table(pos, n), env, env');
    case Relation(r, args, at) => JoinIs(args, src.stored(r, at), env, env');
    case Search(spec, q, bs) => JoinIs(bs, src.search(spec, env[q]), env, env');
    case NegatedRule(n, args) => NegatedIs(src, pos, neg, a, env, env');
    case NegatedRelation(r, args, at) => NegatedIs(src, pos, neg, a, env, env');
    case Predicate(e) => SameEnv(env, env');
    case Unification(b, e, oneMany) => UnifyIs(src, pos, neg, b, e, oneMany, env, env');
  }

  lemma NegatedIs<S(!new)>(src: Source, pos: Tables<S>, neg: Tables<S>, a: Atom<S>, env: Env, env': Env)
    requires a.NegatedRule? || a.NegatedRelation?
    ensures env' in Extend(src, pos, neg, a, env) <==> env' == env && Holds(WorldOf(src), Facts(pos), Facts(neg), a, env')
    ensures env == env' <==> env'.Keys == env.Keys && forall s :: s in env ==> env'[s] == env[s]
  {
    match a
    case NegatedRule(n, args) =>
      assert forall t :: t in Table(neg, n) <==> Fact(n, t) in Facts(neg);
    case NegatedRelation(r, args, at) =>
      assert forall t :: t in src.stored(r, at) <==> t in WorldOf(src).stored(r, at);
  }

  lemma SameEnv(env: Env, env': Env)
    ensures env == env' <==> env'.Keys == env.Keys && forall s :: s in env ==> env'[s] == env[s]
  {
  }

  lemma UnifyIs<S(!new)>(src: Source, pos: Tables<S>, neg: Tables<S>, b: Symbol, e: Expr, oneMany: bool, env: Env, env': Env)
    requires Vars(e) <= env.Keys
    ensures env' in Extend(src, pos, neg, Atom<S>.Unification(b, e, oneMany), env) <==>
            && env'.Keys == env.Keys + {b}
            && (forall s :: s in env ==> env'[s] == env[s])
            && Holds(WorldOf(src), Facts(pos), Facts(neg), Atom<S>.Unification(b, e, oneMany), env')
  {
    hide Unify;
    var v := EvalIn(src.ops, e, env);
    if v.Success? {
      UnifyValue(v.value, b, oneMany, env, env');
    }
    if env'.Keys == env.Keys + {b} && forall s :: s in env ==> env'[s] == env[s] {
      EvalInFrame(src.ops, e, env, env');
    }
  }

  lemma UnifyValue(v: DataValue, b: Symbol, oneMany: bool, env: Env, env': Env)
    ensures env' in Unify(v, b, oneMany, env) <==>
            && env'.Keys == env.Keys + {b}
            && (forall s :: s in env ==> env'[s] == env[s])
            && (if oneMany then v.List? && env'[b] in v.items else v == env'[b])
  {
    if env'.Keys == env.Keys + {b} && forall s :: s in env ==> env'[s] == env[s] {
      assert env' == env[b := env'[b]];
    }
  }

  /** The first `k` atoms hold under an assignment of exactly their variables. */
  ghost predicate Satisfies<S(!new)>(src: Source, pos: Tables<S>, neg: Tables<S>, body: seq<Atom<S>>, k: nat, env: Env)
    requires k <= |body|
  {
    && env.Keys == BodyBinds(body[..k])
    && forall i :: 0 <= i < k ==> Holds(WorldOf(src), Facts(pos), Facts(neg), body[i], env)
  }

  /** Satisfying one atom more is satisfying the earlier ones and extending by it. */
  lemma SatisfiesStep<S(!new)>(src: Source, pos: Tables<S>, neg: Tables<S>, body: seq<Atom<S>>, k: nat, env: Env)
    requires WellOrdered(body) && k < |body|
    ensures Satisfies(src, pos, neg, body, k + 1, env) <==>
            && env.Keys == BodyBinds(body[..k]) + Binds(body[k])
            && Satisfies(src, pos, neg, body, k, Restrict(env, BodyBinds(body[..k])))
            && Holds(WorldOf(src), Facts(pos), Facts(neg), body[k], env)
  {
    hide Holds, Binds, Uses, Negates, BodyBinds, WellOrdered;
    BodyBindsStep(body, k);
    BodyBindsPrefix(body, k + 1);
    var keys := BodyBinds(body[..k]);
    if env.Keys == keys + Binds(body[k]) {
      assert Restrict(env, keys).Keys == keys;
      forall i | 0 <= i < k
        ensures Holds(WorldOf(src), Facts(pos), Facts(neg), body[i], env) <==>
                Holds(WorldOf(src), Facts(pos), Facts(neg), body[i], Restrict(env, keys))
      {
        PassedVars(body, i, k);
        HoldsRestrict(WorldOf(src), Facts(pos), Facts(neg), body[i], env, keys, BodyBinds(body));
      }
    }
  }

  /** Walking an ordered body from left to right finds exactly its satisfying assignments. */
  lemma {:induction false} AssignmentsIs<S(!new)>(src: Source, pos: Tables<S>, neg: Tables<S>, body: seq<Atom<S>>, k: nat, env: Env)
    requires WellOrdered(body) && k <= |body|
    ensures env in Assignments(src, pos, neg, body, k) <==> Satisfies(src, pos, neg, body, k, env)
    decreases k
  {
    hide Extend, Holds, BodyBinds, Binds;
    if k == 0 {
      BodyBindsNone(body[..0]);
    } else {
      var keys, a := BodyBinds(body[..k - 1]), body[k - 1];
      SatisfiesStep(src, pos, neg, body, k - 1, env);
      if env in Assignments(src, pos, neg, body, k) {
        var env0 :| env0 in Assignments(src, pos, neg, body, k - 1) && env in Extend(src, pos, neg, a, env0);
        AssignmentsIs(src, pos, neg, body, k - 1, env0);
        ExtendIs(src, pos, neg, a, env0, env);
        assert env0 == Restrict(env, keys);
      }
      if Satisfies(src, pos, neg, body, k, env) {
        var env0 := Restrict(env, keys);
        AssignmentsIs(src, pos, neg, body, k - 1, env0);
        ExtendIs(src, pos, neg, a, env0, env);
      }
    }
  }

  /** The rows of a rule are exactly what its body yields. */
  lemma RuleRowsIs<S(!new)>(src: Source, pos: Tables<S>, neg: Tables<S>, r: InlineRule<S>, t: Tuple)
    requires WellOrdered(r.body) && IsPlain(r)
    ensures t in RuleRows(src, pos, neg, r) <==> exists env :: Yields(WorldOf(src), Facts(pos), Facts(neg), r, env, t)
  {
    hide Holds, BodyBinds, WellOrdered, Assignments;
    assert r.body[..|r.body|] == r.body;
    if t in RuleRows(src, pos, neg, r) {
      var env :| env in Assignments(src, pos, neg, r.body, |r.body|) && Bound(r.head, env) && t == Row(r.head, env);
      AssignmentsIs(src, pos, neg, r.body, |r.body|, env);
      assert Yields(WorldOf(src), Facts(pos), Facts(neg), r, env, t);
    }
    if env :| Yields(WorldOf(src), Facts(pos), Facts(neg), r, env, t) {
      AssignmentsIs(src, pos, neg, r.body, |r.body|, env);
    }
  }
}
