/** Folding constants before a query runs (data/expr.rs). */
module PartialEval {
  import opened Wrappers
  import opened Values
  import opened Exprs
  import opened Bytecode

  const NEGATE: string := "OP_NEGATE"

  /** Negation looks at its first argument, which must be a truth value. */
  ghost predicate NegateIs(ops: Ops) {
    forall vs: seq<DataValue> :: ops(NEGATE, vs) == if vs != [] && vs[0].Bool? then Success(Bool(!vs[0].b)) else Failure
  }

  predicate AllConst(args: seq<Expr>) {
    forall i :: 0 <= i < |args| ==> args[i].Const?
  }

  /** A negation of a negation, as it stands after the arguments have been folded. */
  predicate IsDoubleNegation(op: string, args: seq<Expr>) {
    op == NEGATE && args != [] && args[0].Apply? && args[0].op == NEGATE
  }

  /** What an application becomes once its arguments are folded. */
  function FoldedHere(ops: Ops, op: string, args: seq<Expr>): Result<Expr> {
    if AllConst(args) then
      var v := Eval(ops, Apply(op, args), []);
      if v.Failure? then Failure else Success(Const(v.value))
    else if IsDoubleNegation(op, args) then (if args[0].args == [] then Failure else Success(args[0].args[0]))
    else Success(Apply(op, args))
  }

  /** Conditionals are left alone. */
  function Folded(ops: Ops, e: Expr): Result<Expr>
    decreases e, 1
  {
    match e
    case Apply(op, args) =>
      var fs := FoldedAll(ops, args);
      if fs.Failure? then Failure else FoldedHere(ops, op, fs.value)
    case _ => Success(e)
  }

  function FoldedAll(ops: Ops, args: seq<Expr>): (r: Result<seq<Expr>>)
    ensures r.Success? ==> |r.value| == |args|
    decreases args, 0
  {
    if args == [] then Success([])
    else
      var f, fs := Folded(ops, args[0]), FoldedAll(ops, args[1..]);
      if f.Failure? || fs.Failure? then Failure else Success([f.value] + fs.value)
  }

  /** Rewrites the tree from the leaves up. */
  method Fold(ops: Ops, e: Expr) returns (r: Result<Expr>)
    ensures r == Folded(ops, e)
    decreases e, 1
  {
    match e
    case Apply(op, args) =>
      var folded, allEvaluated := FoldArgs(ops, args);
      if folded.Failure? {
        return Failure;
      }
      var self := Apply(op, folded.value);
      if allEvaluated {
        var v := Eval(ops, self, []);
        if v.Failure? {
          return Failure;
        }
        self := Const(v.value);
      }
      if self.Apply? && self.op == NEGATE && self.args != [] {
        var inner := self.args[0];
        if inner.Apply? && inner.op == NEGATE {
          if inner.args == [] {
            return Failure;
          }
          self := inner.args[0];
        }
      }
      return Success(self);
    case _ =>
      return Success(e);
  }

  method FoldArgs(ops: Ops, args: seq<Expr>) returns (r: Result<seq<Expr>>, allEvaluated: bool)
    ensures r == FoldedAll(ops, args)
    ensures r.Success? ==> (allEvaluated <==> AllConst(r.value))
    decreases args, 0
  {
    hide Folded;
    var out: seq<Expr> := [];
    allEvaluated := true;
    assert args[0..] == args;
    assert FoldedAll(ops, args).Success? ==> [] + FoldedAll(ops, args).value == FoldedAll(ops, args).value;
    for i := 0 to |args|
      invariant |out| == i && (allEvaluated <==> AllConst(out))
      invariant FoldedAll(ops, args) == var rest := FoldedAll(ops, args[i..]); if rest.Failure? then Failure else Success(out + rest.value)
    {
      assert args[i..][1..] == args[i + 1..];
      var f := Fold(ops, args[i]);
      if f.Failure? {
        return Failure, false;
      }
      ghost var rest := FoldedAll(ops, args[i + 1..]);
      assert rest.Success? ==> out + ([f.value] + rest.value) == out + [f.value] + rest.value;
      ConstMore(out, f.value);
      out := out + [f.value];
      allEvaluated := allEvaluated && f.value.Const?;
    }
    assert out + [] == out;
    r := Success(out);
  }

  lemma ConstMore(args: seq<Expr>, e: Expr)
    ensures AllConst(args + [e]) <==> AllConst(args) && e.Const?
  {
    assert (args + [e])[|args|] == e;
    assert forall i :: 0 <= i < |args| ==> (args + [e])[i] == args[i];
  }

  // ----- folding refines -----

  /** Whatever the original evaluates to, the folded expression does. */
  ghost predicate Refines(ops: Ops, e: Expr, f: Expr, t: Tuple) {
    Eval(ops, e, t).Success? ==> Eval(ops, f, t) == Eval(ops, e, t)
  }

  lemma {:induction false} ConstsAnywhere(ops: Ops, args: seq<Expr>, t: Tuple, u: Tuple)
    requires AllConst(args)
    ensures EvalAll(ops, args, t) == EvalAll(ops, args, u)
    decreases |args|
  {
    if args != [] {
      ConstsAnywhere(ops, args[1..], t, u);
    }
  }

  /** Folding one application whose arguments are folded. */
  lemma HereRefines(ops: Ops, op: string, args: seq<Expr>, t: Tuple)
    requires NegateIs(ops)
    ensures FoldedHere(ops, op, args).Success? ==> Refines(ops, Apply(op, args), FoldedHere(ops, op, args).value, t)
    ensures FoldedHere(ops, op, args).Failure? ==> Eval(ops, Apply(op, args), t).Failure?
  {
    if AllConst(args) {
      ConstsAnywhere(ops, args, t, []);
    } else if IsDoubleNegation(op, args) {
      DoubleNegation(ops, args, t);
    }
  }

  lemma DoubleNegation(ops: Ops, args: seq<Expr>, t: Tuple)
    requires NegateIs(ops) && IsDoubleNegation(NEGATE, args)
    ensures args[0].args == [] ==> Eval(ops, Apply(NEGATE, args), t).Failure?
    ensures args[0].args != [] ==> Refines(ops, Apply(NEGATE, args), args[0].args[0], t)
  {
    var inner := args[0].args;
    var vs, ws := EvalAll(ops, args, t), EvalAll(ops, inner, t);
    if vs.Success? {
      assert vs.value[0] == Eval(ops, args[0], t).value;
      if inner != [] && ws.Success? {
        assert ws.value[0] == Eval(ops, inner[0], t).value;
      }
    }
  }

  /** The folded expression gives every value the original gives, and folding only fails where the original always does. */
  lemma {:induction false} FoldRefines(ops: Ops, e: Expr, t: Tuple)
    requires NegateIs(ops)
    ensures Folded(ops, e).Success? ==> Refines(ops, e, Folded(ops, e).value, t)
    ensures Folded(ops, e).Failure? ==> Eval(ops, e, t).Failure?
    decreases e, 1
  {
    if e.Apply? {
      hide FoldedHere;
      FoldAllRefines(ops, e.args, t);
      var fs := FoldedAll(ops, e.args);
      if fs.Success? {
        HereRefines(ops, e.op, fs.value, t);
      }
    }
  }

  lemma {:induction false} FoldAllRefines(ops: Ops, args: seq<Expr>, t: Tuple)
    requires NegateIs(ops)
    ensures var fs := FoldedAll(ops, args);
            if fs.Success? then EvalAll(ops, args, t).Success? ==> EvalAll(ops, fs.value, t) == EvalAll(ops, args, t)
            else EvalAll(ops, args, t).Failure?
    decreases args, 0
  {
    hide Folded, Eval, NegateIs;
    if args != [] {
      FoldRefines(ops, args[0], t);
      FoldAllRefines(ops, args[1..], t);
      var fs := FoldedAll(ops, args);
      if fs.Success? {
        assert fs.value[0] == Folded(ops, args[0]).value && fs.value[1..] == FoldedAll(ops, args[1..]).value;
      }
    }
  }

  /** It is no more than a refinement: dropping a double negation forgets that the inner value must be a truth value. */
  lemma FoldForgetsType(ops: Ops, v: DataValue, x: Symbol)
    requires NegateIs(ops) && !v.Bool?
    ensures var e := Apply(NEGATE, [Apply(NEGATE, [Binding(x, Some(0))])]);
            Eval(ops, e, [v]) == Failure && Folded(ops, e) == Success(Binding(x, Some(0))) && Eval(ops, Binding(x, Some(0)), [v]) == Success(v)
  {
    var b := Binding(x, Some(0));
    var inner := Apply(NEGATE, [b]);
    assert [b][1..] == [] && [inner][1..] == [] && [v] + [] == [v] && [b] + [] == [b] && [inner] + [] == [inner];
    assert Eval(ops, b, [v]) == Success(v);
    assert EvalAll(ops, [b], [v]) == Success([v]);
    assert FoldedAll(ops, [b]) == Success([b]);
    assert [b][0] == b && !AllConst([b]);
    assert Folded(ops, inner) == Success(inner);
    assert FoldedAll(ops, [inner]) == Success([inner]);
    assert [inner][0] == inner && !AllConst([inner]);
    assert Eval(ops, inner, [v]) == Failure;
    assert EvalAll(ops, [inner], [v]) == Failure;
  }

  // ----- where folding changes nothing -----

  /** A double negation is dropped over a value that is no truth value, or with a further argument that fails. */
  ghost predicate Forgets(ops: Ops, args: seq<Expr>, t: Tuple)
    requires IsDoubleNegation(NEGATE, args) && args[0].args != []
  {
    var inner := args[0].args;
    var v := Eval(ops, inner[0], t);
    v.Success? && !(v.value.Bool? && EvalAll(ops, inner[1..], t).Success? && EvalAll(ops, args[1..], t).Success?)
  }

  /** Dropping a double negation changes nothing exactly if it does not forget. */
  lemma DropAgreesIff(ops: Ops, args: seq<Expr>, t: Tuple)
    requires NegateIs(ops) && IsDoubleNegation(NEGATE, args) && args[0].args != []
    ensures Eval(ops, args[0].args[0], t) == Eval(ops, Apply(NEGATE, args), t) <==> !Forgets(ops, args, t)
  {
    var inner := args[0].args;
    var v := Eval(ops, inner[0], t);
    assert Eval(ops, args[0], t) == var ws := EvalAll(ops, inner, t); if ws.Failure? then Failure else ops(NEGATE, ws.value);
    if v.Success? && EvalAll(ops, inner[1..], t).Success? {
      assert EvalAll(ops, inner, t).value[0] == v.value;
      if v.value.Bool? && EvalAll(ops, args[1..], t).Success? {
        assert EvalAll(ops, args, t).value[0] == Bool(!v.value.b);
      }
    }
  }

  /** No double negation that folding drops forgets. */
  ghost predicate Remembers(ops: Ops, e: Expr, t: Tuple)
    decreases e, 1
  {
    e.Apply? ==>
      && AllRemember(ops, e.args, t)
      && var fs := FoldedAll(ops, e.args);
         (fs.Success? && !AllConst(fs.value) && IsDoubleNegation(e.op, fs.value) && fs.value[0].args != [] ==> !Forgets(ops, fs.value, t))
  }

  ghost predicate AllRemember(ops: Ops, args: seq<Expr>, t: Tuple)
    decreases args, 0
  {
    args == [] || (Remembers(ops, args[0], t) && AllRemember(ops, args[1..], t))
  }

  lemma HereAgrees(ops: Ops, op: string, args: seq<Expr>, t: Tuple)
    requires NegateIs(ops) && FoldedHere(ops, op, args).Success?
    requires !AllConst(args) && IsDoubleNegation(op, args) && args[0].args != [] ==> !Forgets(ops, args, t)
    ensures Eval(ops, FoldedHere(ops, op, args).value, t) == Eval(ops, Apply(op, args), t)
  {
    hide Forgets;
    if AllConst(args) {
      ConstsAnywhere(ops, args, t, []);
    } else if IsDoubleNegation(op, args) {
      DropAgreesIff(ops, args, t);
    }
  }

  /** Then the folded expression has the value of the original or fails with it. */
  lemma {:induction false} FoldAgrees(ops: Ops, e: Expr, t: Tuple)
    requires NegateIs(ops) && Remembers(ops, e, t) && Folded(ops, e).Success?
    ensures Eval(ops, Folded(ops, e).value, t) == Eval(ops, e, t)
    decreases e, 1
  {
    if e.Apply? {
      hide FoldedHere, Forgets;
      var fs := FoldedAll(ops, e.args).value;
      FoldAllAgree(ops, e.args, t);
      HereAgrees(ops, e.op, fs, t);
    }
  }

  lemma {:induction false} FoldAllAgree(ops: Ops, args: seq<Expr>, t: Tuple)
    requires NegateIs(ops) && AllRemember(ops, args, t) && FoldedAll(ops, args).Success?
    ensures EvalAll(ops, FoldedAll(ops, args).value, t) == EvalAll(ops, args, t)
    decreases args, 0
  {
    hide Folded, Eval, NegateIs, Remembers;
    if args != [] {
      FoldAgrees(ops, args[0], t);
      FoldAllAgree(ops, args[1..], t);
      var fs := FoldedAll(ops, args).value;
      assert fs[0] == Folded(ops, args[0]).value && fs[1..] == FoldedAll(ops, args[1..]).value;
    }
  }

  /** Nothing is forgotten in an expression that has a value. */
  lemma {:induction false} ValueRemembers(ops: Ops, e: Expr, t: Tuple)
    requires NegateIs(ops) && Eval(ops, e, t).Success?
    ensures Remembers(ops, e, t)
    decreases e, 1
  {
    if e.Apply? {
      AllValuesRemember(ops, e.args, t);
      FoldAllRefines(ops, e.args, t);
      var fs := FoldedAll(ops, e.args);
      if fs.Success? && !AllConst(fs.value) && IsDoubleNegation(e.op, fs.value) && fs.value[0].args != [] {
        assert Eval(ops, Apply(NEGATE, fs.value), t).Success?;
        DoubleNegation(ops, fs.value, t);
        DropAgreesIff(ops, fs.value, t);
      }
    }
  }

  lemma {:induction false} AllValuesRemember(ops: Ops, args: seq<Expr>, t: Tuple)
    requires NegateIs(ops) && EvalAll(ops, args, t).Success?
    ensures AllRemember(ops, args, t)
    decreases args, 0
  {
    hide Folded, Eval, NegateIs, Remembers;
    if args != [] {
      ValueRemembers(ops, args[0], t);
      AllValuesRemember(ops, args[1..], t);
    }
  }

  // ----- folding keeps expressions compilable -----

  lemma {:induction false} FoldStaysGood(ops: Ops, e: Expr)
    requires Compilable(e) && CondsEnd(e) && Folded(ops, e).Success?
    ensures Compilable(Folded(ops, e).value) && CondsEnd(Folded(ops, e).value)
    decreases e, 1
  {
    if e.Apply? {
      FoldAllStayGood(ops, e.args);
      var fs := FoldedAll(ops, e.args).value;
      if !AllConst(fs) && IsDoubleNegation(e.op, fs) {
        EachCompilable(fs, 0);
        EachCondsEnd(fs, 0);
        EachCompilable(fs[0].args, 0);
        EachCondsEnd(fs[0].args, 0);
      }
    }
  }

  lemma {:induction false} FoldAllStayGood(ops: Ops, args: seq<Expr>)
    requires AllCompilable(args) && AllCondsEnd(args) && FoldedAll(ops, args).Success?
    ensures AllCompilable(FoldedAll(ops, args).value) && AllCondsEnd(FoldedAll(ops, args).value)
    decreases args, 0
  {
    if args != [] {
      FoldStaysGood(ops, args[0]);
      FoldAllStayGood(ops, args[1..]);
      var fs := FoldedAll(ops, args).value;
      assert fs[0] == Folded(ops, args[0]).value && fs[1..] == FoldedAll(ops, args[1..]).value;
    }
  }

  /** Folded, then compiled, then run: the value of the original expression wherever it has one. */
  lemma FoldedCompiledRun(ops: Ops, e: Expr, t: Tuple)
    requires NegateIs(ops) && Compilable(e) && CondsEnd(e) && Eval(ops, e, t).Success?
    ensures Folded(ops, e).Success? && Run(ops, Code(Folded(ops, e).value, 0), t, 0, []) == Value(Eval(ops, e, t).value)
  {
    FoldRefines(ops, e, t);
    FoldStaysGood(ops, e);
    CompiledRun(ops, Folded(ops, e).value, t);
  }

  // ----- the same by variable name -----

  lemma {:induction false} ConstsByName(ops: Ops, args: seq<Expr>, env: map<Symbol, DataValue>)
    requires AllConst(args)
    ensures EvalAllIn(ops, args, env) == EvalAll(ops, args, [])
    decreases |args|
  {
    if args != [] {
      ConstsByName(ops, args[1..], env);
    }
  }

  lemma DoubleNegationByName(ops: Ops, args: seq<Expr>, env: map<Symbol, DataValue>)
    requires NegateIs(ops) && IsDoubleNegation(NEGATE, args)
    ensures args[0].args == [] ==> EvalIn(ops, Apply(NEGATE, args), env).Failure?
    ensures args[0].args != [] && EvalIn(ops, Apply(NEGATE, args), env).Success? ==>
            EvalIn(ops, args[0].args[0], env) == EvalIn(ops, Apply(NEGATE, args), env)
  {
    var inner := args[0].args;
    var vs, ws := EvalAllIn(ops, args, env), EvalAllIn(ops, inner, env);
    if vs.Success? {
      assert vs.value[0] == EvalIn(ops, args[0], env).value;
      if inner != [] && ws.Success? {
        assert ws.value[0] == EvalIn(ops, inner[0], env).value;
      }
    }
  }

  lemma HereRefinesByName(ops: Ops, op: string, args: seq<Expr>, env: map<Symbol, DataValue>)
    requires NegateIs(ops)
    ensures var f := FoldedHere(ops, op, args);
            if f.Success? then EvalIn(ops, Apply(op, args), env).Success? ==> EvalIn(ops, f.value, env) == EvalIn(ops, Apply(op, args), env)
            else EvalIn(ops, Apply(op, args), env).Failure?
  {
    if AllConst(args) {
      ConstsByName(ops, args, env);
    } else if IsDoubleNegation(op, args) {
      DoubleNegationByName(ops, args, env);
    }
  }

  lemma {:induction false} FoldRefinesByName(ops: Ops, e: Expr, env: map<Symbol, DataValue>)
    requires NegateIs(ops)
    ensures var f := Folded(ops, e);
            if f.Success? then EvalIn(ops, e, env).Success? ==> EvalIn(ops, f.value, env) == EvalIn(ops, e, env)
            else EvalIn(ops, e, env).Failure?
    decreases e, 1
  {
    if e.Apply? {
      hide FoldedHere;
      FoldAllRefinesByName(ops, e.args, env);
      var fs := FoldedAll(ops, e.args);
      if fs.Success? {
        HereRefinesByName(ops, e.op, fs.value, env);
      }
    }
  }

  lemma {:induction false} FoldAllRefinesByName(ops: Ops, args: seq<Expr>, env: map<Symbol, DataValue>)
    requires NegateIs(ops)
    ensures var fs := FoldedAll(ops, args);
            if fs.Success? then EvalAllIn(ops, args, env).Success? ==> EvalAllIn(ops, fs.value, env) == EvalAllIn(ops, args, env)
            else EvalAllIn(ops, args, env).Failure?
    decreases args, 0
  {
    hide Folded, EvalIn, NegateIs;
    if args != [] {
      FoldRefinesByName(ops, args[0], env);
      FoldAllRefinesByName(ops, args[1..], env);
      var fs := FoldedAll(ops, args);
      if fs.Success? {
        assert fs.value[0] == Folded(ops, args[0]).value && fs.value[1..] == FoldedAll(ops, args[1..]).value;
      }
    }
  }

  /** A double negation is dropped over a value that is no truth value, or with a further argument that fails. */
  ghost predicate ForgetsByName(ops: Ops, args: seq<Expr>, env: map<Symbol, DataValue>)
    requires IsDoubleNegation(NEGATE, args) && args[0].args != []
  {
    var inner := args[0].args;
    var v := EvalIn(ops, inner[0], env);
    v.Success? && !(v.value.Bool? && EvalAllIn(ops, inner[1..], env).Success? && EvalAllIn(ops, args[1..], env).Success?)
  }

  /** Dropping a double negation changes nothing exactly if it does not forget. */
  lemma DropAgreesByNameIff(ops: Ops, args: seq<Expr>, env: map<Symbol, DataValue>)
    requires NegateIs(ops) && IsDoubleNegation(NEGATE, args) && args[0].args != []
    ensures EvalIn(ops, args[0].args[0], env) == EvalIn(ops, Apply(NEGATE, args), env) <==> !ForgetsByName(ops, args, env)
  {
    var inner := args[0].args;
    var v := EvalIn(ops, inner[0], env);
    assert EvalIn(ops, args[0], env) == var ws := EvalAllIn(ops, inner, env); if ws.Failure? then Failure else ops(NEGATE, ws.value);
    if v.Success? && EvalAllIn(ops, inner[1..], env).Success? {
      assert EvalAllIn(ops, inner, env).value[0] == v.value;
      if v.value.Bool? && EvalAllIn(ops, args[1..], env).Success? {
        assert EvalAllIn(ops, args, env).value[0] == Bool(!v.value.b);
      }
    }
  }

  /** No double negation that folding drops forgets. */
  ghost predicate RemembersByName(ops: Ops, e: Expr, env: map<Symbol, DataValue>)
    decreases e, 1
  {
    e.Apply? ==>
      && AllRememberByName(ops, e.args, env)
      && var fs := FoldedAll(ops, e.args);
         (fs.Success? && !AllConst(fs.value) && IsDoubleNegation(e.op, fs.value) && fs.value[0].args != [] ==> !ForgetsByName(ops, fs.value, env))
  }

  ghost predicate AllRememberByName(ops: Ops, args: seq<Expr>, env: map<Symbol, DataValue>)
    decreases args, 0
  {
    args == [] || (RemembersByName(ops, args[0], env) && AllRememberByName(ops, args[1..], env))
  }

  lemma HereAgreesByName(ops: Ops, op: string, args: seq<Expr>, env: map<Symbol, DataValue>)
    requires NegateIs(ops) && FoldedHere(ops, op, args).Success?
    requires !AllConst(args) && IsDoubleNegation(op, args) && args[0].args != [] ==> !ForgetsByName(ops, args, env)
    ensures EvalIn(ops, FoldedHere(ops, op, args).value, env) == EvalIn(ops, Apply(op, args), env)
  {
    hide ForgetsByName;
    if AllConst(args) {
      ConstsByName(ops, args, env);
    } else if IsDoubleNegation(op, args) {
      DropAgreesByNameIff(ops, args, env);
    }
  }

  /** Then the folded expression has the value of the original or fails with it. */
  lemma {:induction false} FoldAgreesByName(ops: Ops, e: Expr, env: map<Symbol, DataValue>)
    requires NegateIs(ops) && RemembersByName(ops, e, env) && Folded(ops, e).Success?
    ensures EvalIn(ops, Folded(ops, e).value, env) == EvalIn(ops, e, env)
    decreases e, 1
  {
    if e.Apply? {
      hide FoldedHere, ForgetsByName;
      var fs := FoldedAll(ops, e.args).value;
      FoldAllAgreeByName(ops, e.args, env);
      HereAgreesByName(ops, e.op, fs, env);
    }
  }

  lemma {:induction false} FoldAllAgreeByName(ops: Ops, args: seq<Expr>, env: map<Symbol, DataValue>)
    requires NegateIs(ops) && AllRememberByName(ops, args, env) && FoldedAll(ops, args).Success?
    ensures EvalAllIn(ops, FoldedAll(ops, args).value, env) == EvalAllIn(ops, args, env)
    decreases args, 0
  {
    hide Folded, EvalIn, NegateIs, RemembersByName;
    if args != [] {
      FoldAgreesByName(ops, args[0], env);
      FoldAllAgreeByName(ops, args[1..], env);
      var fs := FoldedAll(ops, args).value;
      assert fs[0] == Folded(ops, args[0]).value && fs[1..] == FoldedAll(ops, args[1..]).value;
    }
  }

  /** Nothing is forgotten in an expression that has a value. */
  lemma {:induction false} ValueRemembersByName(ops: Ops, e: Expr, env: map<Symbol, DataValue>)
    requires NegateIs(ops) && EvalIn(ops, e, env).Success?
    ensures RemembersByName(ops, e, env)
    decreases e, 1
  {
    if e.Apply? {
      AllValuesRememberByName(ops, e.args, env);
      FoldAllRefinesByName(ops, e.args, env);
      var fs := FoldedAll(ops, e.args);
      if fs.Success? && !AllConst(fs.value) && IsDoubleNegation(e.op, fs.value) && fs.value[0].args != [] {
        assert EvalIn(ops, Apply(NEGATE, fs.value), env).Success?;
        DoubleNegationByName(ops, fs.value, env);
        DropAgreesByNameIff(ops, fs.value, env);
      }
    }
  }

  lemma {:induction false} AllValuesRememberByName(ops: Ops, args: seq<Expr>, env: map<Symbol, DataValue>)
    requires NegateIs(ops) && EvalAllIn(ops, args, env).Success?
    ensures AllRememberByName(ops, args, env)
    decreases args, 0
  {
    hide Folded, EvalIn, NegateIs, RemembersByName;
    if args != [] {
      ValueRemembersByName(ops, args[0], env);
      AllValuesRememberByName(ops, args[1..], env);
    }
  }

  /** Folding introduces no variables. */
  lemma {:induction false} FoldKeepsVars(ops: Ops, e: Expr)
    requires Folded(ops, e).Success?
    ensures Vars(Folded(ops, e).value) <= Vars(e)
    decreases e, 1
  {
    if e.Apply? {
      hide FoldedHere;
      FoldAllKeepVars(ops, e.args);
      HereKeepsVars(ops, e.op, FoldedAll(ops, e.args).value);
      var fs := FoldedAll(ops, e.args).value;
      forall s | s in Vars(Apply(e.op, fs))
        ensures s in Vars(e)
      {
        var i :| 0 <= i < |fs| && s in Vars(fs[i]);
        assert s in Vars(e.args[i]);
      }
    }
  }

  lemma HereKeepsVars(ops: Ops, op: string, args: seq<Expr>)
    requires FoldedHere(ops, op, args).Success?
    ensures Vars(FoldedHere(ops, op, args).value) <= Vars(Apply(op, args))
  {
    if !AllConst(args) && IsDoubleNegation(op, args) {
      assert forall s :: s in Vars(args[0].args[0]) ==> s in Vars(args[0]);
    }
  }

  lemma {:induction false} FoldAllKeepVars(ops: Ops, args: seq<Expr>)
    requires FoldedAll(ops, args).Success?
    ensures forall i :: 0 <= i < |args| ==> Vars(FoldedAll(ops, args).value[i]) <= Vars(args[i])
    decreases args, 0
  {
    hide Folded, Vars;
    if args != [] {
      FoldKeepsVars(ops, args[0]);
      FoldAllKeepVars(ops, args[1..]);
      var fs := FoldedAll(ops, args).value;
      forall i | 0 <= i < |args|
        ensures Vars(fs[i]) <= Vars(args[i])
      {
        if i > 0 {
          assert fs[i] == FoldedAll(ops, args[1..]).value[i - 1] && args[i] == args[1..][i - 1];
        }
      }
    }
  }
}
