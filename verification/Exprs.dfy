/** Expressions and their recursive evaluation (data/expr.rs). */
module Exprs {
  import opened Wrappers
  import opened Values

  type Symbol = string

  datatype Expr =
    | Binding(sym: Symbol, tuplePos: Option<nat>)
    | Const(val: DataValue)
    | Apply(op: string, args: seq<Expr>)
    | UnboundApply(fname: string, uargs: seq<Expr>)
    | Cond(clauses: seq<Clause>)

  /** A condition and the value it selects. */
  datatype Clause = Clause(test: Expr, value: Expr)

  /** The built-in operators, as pure functions that may fail. */
  type Ops = (string, seq<DataValue>) -> Result<DataValue>

  /** The variables an expression reads. */
  function Vars(e: Expr): set<Symbol> {
    match e
    case Binding(s, _) => {s}
    case Const(_) => {}
    case Apply(_, args) => set i, s | 0 <= i < |args| && s in Vars(args[i]) :: s
    case UnboundApply(_, _) => {}
    case Cond(cs) =>
      (set i, s | 0 <= i < |cs| && s in Vars(cs[i].test) :: s) + (set i, s | 0 <= i < |cs| && s in Vars(cs[i].value) :: s)
  }

  /** Evaluation against variables looked up by name, as a query defines it. */
  function EvalIn(ops: Ops, e: Expr, env: map<Symbol, DataValue>): Result<DataValue>
    decreases e, 1
  {
    match e
    case Binding(s, _) => if s in env then Success(env[s]) else Failure
    case Const(v) => Success(v)
    case Apply(op, args) =>
      var vs := EvalAllIn(ops, args, env);
      if vs.Failure? then Failure else ops(op, vs.value)
    case UnboundApply(_, _) => Failure
    case Cond(cs) => EvalClausesIn(ops, cs, env)
  }

  function EvalAllIn(ops: Ops, args: seq<Expr>, env: map<Symbol, DataValue>): Result<seq<DataValue>>
    decreases args, 0
  {
    if args == [] then Success([])
    else
      var v := EvalIn(ops, args[0], env);
      var vs := EvalAllIn(ops, args[1..], env);
      if v.Failure? || vs.Failure? then Failure else Success([v.value] + vs.value)
  }

  function EvalClausesIn(ops: Ops, cs: seq<Clause>, env: map<Symbol, DataValue>): Result<DataValue>
    decreases cs, 0
  {
    if cs == [] then Success(Null)
    else
      assert cs[0].test < cs[0] && cs[0].value < cs[0];
      var c := EvalIn(ops, cs[0].test, env);
      if c.Failure? || !c.value.Bool? then Failure
      else if c.value.b then EvalIn(ops, cs[0].value, env)
      else EvalClausesIn(ops, cs[1..], env)
  }

  ghost predicate AgreeOn(vars: set<Symbol>, env: map<Symbol, DataValue>, env': map<Symbol, DataValue>) {
    forall s :: s in vars ==> (s in env <==> s in env') && (s in env ==> env[s] == env'[s])
  }

  /** An expression only looks at the variables it mentions. */
  lemma {:induction false} EvalInFrame(ops: Ops, e: Expr, env: map<Symbol, DataValue>, env': map<Symbol, DataValue>)
    requires AgreeOn(Vars(e), env, env')
    ensures EvalIn(ops, e, env) == EvalIn(ops, e, env')
    decreases e, 1
  {
    match e
    case Binding(_, _) =>
    case Const(_) =>
    case UnboundApply(_, _) =>
    case Apply(_, args) =>
      assert forall i :: 0 <= i < |args| ==> Vars(args[i]) <= Vars(e);
      EvalAllInFrame(ops, args, env, env');
    case Cond(cs) =>
      assert forall i :: 0 <= i < |cs| ==> Vars(cs[i].test) <= Vars(e) && Vars(cs[i].value) <= Vars(e);
      EvalClausesInFrame(ops, cs, env, env');
  }

  lemma {:induction false} EvalAllInFrame(ops: Ops, args: seq<Expr>, env: map<Symbol, DataValue>, env': map<Symbol, DataValue>)
    requires forall i :: 0 <= i < |args| ==> AgreeOn(Vars(args[i]), env, env')
    ensures EvalAllIn(ops, args, env) == EvalAllIn(ops, args, env')
    decreases args, 0
  {
    if args != [] {
      EvalInFrame(ops, args[0], env, env');
      EvalAllInFrame(ops, args[1..], env, env');
    }
  }

  lemma {:induction false} EvalClausesInFrame(ops: Ops, cs: seq<Clause>, env: map<Symbol, DataValue>, env': map<Symbol, DataValue>)
    requires forall i :: 0 <= i < |cs| ==> AgreeOn(Vars(cs[i].test), env, env') && AgreeOn(Vars(cs[i].value), env, env')
    ensures EvalClausesIn(ops, cs, env) == EvalClausesIn(ops, cs, env')
    decreases cs, 0
  {
    if cs != [] {
      assert cs[0].test < cs[0] && cs[0].value < cs[0];
      EvalInFrame(ops, cs[0].test, env, env');
      EvalInFrame(ops, cs[0].value, env, env');
      EvalClausesInFrame(ops, cs[1..], env, env');
    }
  }
}
