/** Normal forms mean what the rule body means. */
module NormalMeaning {
  import opened Wrappers
  import opened Values
  import opened Exprs
  import opened Program
  import opened Datalog
  import opened BodyEval
  import opened PartialEval
  import opened NormalForm

  type Conj = seq<Atom<Symbol>>

  ghost predicate UserExpr(e: Expr) {
    forall s :: s in Vars(e) ==> IsUser(s)
  }

  ghost predicate UserArgs(args: seq<Expr>) {
    forall i :: 0 <= i < |args| ==> UserExpr(args[i])
  }

  ghost predicate UserEnv(env: Env) {
    forall s :: s in env ==> IsUser(s)
  }

  /** The generated symbols that a conjunction binds. */
  ghost function GenBinds(c: Conj): set<Symbol> {
    set s | s in BodyBinds(c) && !IsUser(s)
  }

  /** The assignment with values for the generated symbols besides. */
  ghost predicate Extends(c: Conj, env: Env, env': Env) {
    env'.Keys == env.Keys + GenBinds(c) && forall s :: s in env ==> env'[s] == env[s]
  }

  /** Some values of the generated symbols make the conjunction hold. */
  ghost predicate Satisfied(w: World, pos: DB<Symbol>, neg: DB<Symbol>, c: Conj, env: Env) {
    exists env' :: Extends(c, env, env') && AllHold(w, pos, neg, c, env')
  }

  ghost predicate SomeSatisfied(w: World, pos: DB<Symbol>, neg: DB<Symbol>, alts: Alternatives, env: Env) {
    exists c :: c in alts && Satisfied(w, pos, neg, c, env)
  }

  // ----- the names in an application -----

  lemma {:induction false} CounterGrows(args: seq<Expr>, g: nat, i: nat, j: nat)
    requires i <= j <= |args|
    ensures Counter(args, g, i) <= Counter(args, g, j)
    ensures i < j && !KeepsName(args, i) ==> Counter(args, g, i) < Counter(args, g, j)
    decreases j
  {
    if i < j {
      CounterGrows(args, g, i, j - 1);
    }
  }

  lemma NameRange(args: seq<Expr>, g: nat, i: nat)
    requires i < |args| && !KeepsName(args, i)
    ensures GeneratedIn(NameAt(args, g, i), g, Counter(args, g, |args|)) && !IsUser(NameAt(args, g, i))
  {
    CounterGrows(args, g, i, |args|);
    var n := Counter(args, g, i) + 1;
    assert NameAt(args, g, i) == Star(n) || NameAt(args, g, i) == Tilde(n);
    GeneratedOnce(NameAt(args, g, i), g, Counter(args, g, |args|), 0);
  }

  lemma NameUser(args: seq<Expr>, g: nat, i: nat)
    requires i < |args| && UserArgs(args)
    ensures IsUser(NameAt(args, g, i)) <==> KeepsName(args, i)
  {
    if KeepsName(args, i) {
      assert args[i].sym in Vars(args[i]);
    } else {
      NameRange(args, g, i);
    }
  }

  /** The arguments of a normalised application are distinct. */
  lemma NamesDistinct(args: seq<Expr>, g: nat, i: nat, j: nat)
    requires i < j < |args| && UserArgs(args)
    ensures NameAt(args, g, i) != NameAt(args, g, j)
  {
    hide Star, Tilde, IsUser;
    NameUser(args, g, i);
    NameUser(args, g, j);
    if !KeepsName(args, i) && !KeepsName(args, j) {
      CounterGrows(args, g, i, j);
      SymbolsDiffer(Counter(args, g, i) + 1, Counter(args, g, j) + 1);
      SymbolsDiffer(Counter(args, g, j) + 1, Counter(args, g, i) + 1);
    }
  }

  lemma {:induction false} UnifiesAre(args: seq<Expr>, g: nat, k: nat, x: Atom<Symbol>)
    requires k <= |args|
    ensures x in Unifies(args, g, k) <==> exists i: nat :: i < k && !IsPlainArg(args, i) && x == UnifyAt(args, g, i)
    decreases k
  {
    hide UnifyAt;
    if k > 0 {
      UnifiesAre(args, g, k - 1, x);
    }
  }

  /** What a normalised application binds: the generated symbols among its arguments. */
  lemma NormalizedBinds(a: InputAtom, negated: bool, g: nat, s: Symbol)
    requires IsApplication(a) && UserArgs(a.inputs)
    ensures s in GenBinds(Normalized(a, negated, g)) <==>
            exists i: nat :: i < |a.inputs| && !KeepsName(a.inputs, i) && NameAt(a.inputs, g, i) == s && (negated ==> !IsPlainArg(a.inputs, i))
  {
    hide IsPlainArg, NameAt;
    var args, c := a.inputs, Normalized(a, negated, g);
    var app := Applied(a, negated, Names(args, g));
    assert c[|c| - 1] == app;
    if s in GenBinds(c) {
      var l :| 0 <= l < |c| && s in Binds(c[l]);
      if l < |c| - 1 {
        assert c[l] in Unifies(args, g, |args|);
        UnifiesAre(args, g, |args|, c[l]);
        var i: nat :| i < |args| && !IsPlainArg(args, i) && c[l] == UnifyAt(args, g, i);
        NameUser(args, g, i);
      } else {
        var i: nat :| i < |args| && Names(args, g)[i] == s;
        NameUser(args, g, i);
      }
    }
    if i: nat :| i < |args| && !KeepsName(args, i) && NameAt(args, g, i) == s && (negated ==> !IsPlainArg(args, i)) {
      NameUser(args, g, i);
      if negated {
        UnifiesAre(args, g, |args|, UnifyAt(args, g, i));
        var us := Unifies(args, g, |args|);
        var l :| 0 <= l < |us| && us[l] == UnifyAt(args, g, i);
        assert c[l] == us[l] && s in Binds(c[l]);
      } else {
        assert Names(args, g)[i] == s;
        assert s in Binds(app);
      }
    }
  }

  /** User variables keep their values. */
  lemma UserFrame(ops: Ops, c: Conj, e: Expr, env: Env, env': Env)
    requires UserExpr(e) && Extends(c, env, env')
    ensures EvalIn(ops, Assigned(e), env') == EvalIn(ops, e, env)
  {
    assert AgreeOn(Vars(e), env, env');
    EvalInFrame(ops, e, env, env');
  }

  // ----- positive applications -----

  lemma ApplyFits(w: World, pos: DB<Symbol>, neg: DB<Symbol>, a: InputAtom, g: nat, env: Env, env': Env)
    requires IsApplication(a) && UserArgs(a.inputs) && UserEnv(env)
    requires var c := Normalized(a, false, g); Extends(c, env, env') && AllHold(w, pos, neg, c, env')
    ensures Sat(w, pos, neg, a, env)
  {
    hide IsPlainArg, EvalIn;
    var args, c := a.inputs, Normalized(a, false, g);
    var app := Applied(a, false, Names(args, g));
    assert app in c;
    assert Holds(w, pos, neg, app, env');
    var t := Row(Names(args, g), env');
    assert t in RowsOf(w, pos, a);
    forall i: nat | i < |args| && !(args[i].Binding? && args[i].sym == IGNORED)
      ensures EvalIn(w.ops, args[i], env) == Success(t[i]) && (args[i].Binding? ==> args[i].sym in env)
    {
      assert Names(args, g)[i] == NameAt(args, g, i) && Names(args, g)[i] in env';
      ArgHas(w, pos, neg, a, false, g, env, env', i);
      assert t[i] == env'[Names(args, g)[i]];
    }
  }

  /** The value of an argument is that of its symbol. */
  lemma ArgHas(w: World, pos: DB<Symbol>, neg: DB<Symbol>, a: InputAtom, negated: bool, g: nat, env: Env, env': Env, i: nat)
    requires IsApplication(a) && UserArgs(a.inputs) && UserEnv(env) && i < |a.inputs|
    requires var c := Normalized(a, negated, g); Extends(c, env, env') && AllHold(w, pos, neg, c, env')
    requires NameAt(a.inputs, g, i) in env' && !(a.inputs[i].Binding? && a.inputs[i].sym == IGNORED)
    ensures EvalIn(w.ops, a.inputs[i], env) == Success(env'[NameAt(a.inputs, g, i)])
    ensures a.inputs[i].Binding? ==> a.inputs[i].sym in env
  {
    var args, c := a.inputs, Normalized(a, negated, g);
    if KeepsName(args, i) {
      NameUser(args, g, i);
    } else {
      UnifiesAre(args, g, |args|, UnifyAt(args, g, i));
      assert UnifyAt(args, g, i) in c;
      UserFrame(w.ops, c, args[i], env, env');
    }
  }

  lemma NamesJoin(w: World, args: seq<Expr>, g: nat, env: Env, t: Tuple)
    requires UserArgs(args) && UserEnv(env) && Fits(w.ops, args, t, env)
    ensures Joins(Names(args, g), t, env)
  {
    hide Star, Tilde, IsUser;
    var names := Names(args, g);
    forall i: nat | i < |names| && names[i] in env
      ensures t[i] == env[names[i]]
    {
      NameUser(args, g, i);
    }
    forall i, j | 0 <= i < j < |names|
      ensures names[i] != names[j]
    {
      NamesDistinct(args, g, i, j);
    }
  }

  lemma AssignExtends(w: World, pos: DB<Symbol>, a: InputAtom, g: nat, env: Env, t: Tuple)
    requires IsApplication(a) && UserArgs(a.inputs) && UserEnv(env)
    requires NamesBound(a.inputs, env) && Fits(w.ops, a.inputs, t, env)
    ensures Extends(Normalized(a, false, g), env, Assign(Names(a.inputs, g), t, env))
  {
    hide IsPlainArg, EvalIn, Star, Tilde, NameAt, Normalized, Assign;
    var args, names := a.inputs, Names(a.inputs, g);
    NamesJoin(w, args, g, env, t);
    AssignIs(names, t, env);
    var env' := Assign(names, t, env);
    forall s
      ensures s in env' <==> s in env || s in GenBinds(Normalized(a, false, g))
    {
      NormalizedBinds(a, false, g, s);
      if s in names {
        var i: nat :| i < |names| && names[i] == s;
        NameUser(args, g, i);
        if KeepsName(args, i) { KeptName(args, g, i); }
      }
      if s in GenBinds(Normalized(a, false, g)) {
        var i: nat :| i < |args| && !KeepsName(args, i) && NameAt(args, g, i) == s;
        assert names[i] == s;
      }
    }
  }

  lemma UnifyHolds(w: World, pos: DB<Symbol>, neg: DB<Symbol>, a: InputAtom, g: nat, env: Env, t: Tuple, i: nat)
    requires IsApplication(a) && UserArgs(a.inputs) && UserEnv(env)
    requires NamesBound(a.inputs, env) && Fits(w.ops, a.inputs, t, env) && i < |a.inputs| && !IsPlainArg(a.inputs, i)
    ensures Holds(w, pos, neg, UnifyAt(a.inputs, g, i), Assign(Names(a.inputs, g), t, env))
  {
    hide IsPlainArg, EvalIn, Star, Tilde, NameAt, Normalized, Assign;
    var args, names := a.inputs, Names(a.inputs, g);
    NamesJoin(w, args, g, env, t);
    AssignIs(names, t, env);
    var env' := Assign(names, t, env);
    AssignExtends(w, pos, a, g, env, t);
    UserFrame(w.ops, Normalized(a, false, g), args[i], env, env');
    assert names[i] in env' && Row(names, env')[i] == env'[names[i]];
    NotPlainFits(w.ops, args, t, env, i);
  }

  lemma ApplyExtends(w: World, pos: DB<Symbol>, neg: DB<Symbol>, a: InputAtom, g: nat, env: Env, t: Tuple)
    requires IsApplication(a) && UserArgs(a.inputs) && UserEnv(env)
    requires NamesBound(a.inputs, env) && t in RowsOf(w, pos, a) && Fits(w.ops, a.inputs, t, env)
    ensures Satisfied(w, pos, neg, Normalized(a, false, g), env)
  {
    hide IsPlainArg, EvalIn, Star, Tilde, NameAt, Extends, Assign, Fits, UserArgs, UserEnv, UnifyAt, NamesBound;
    var args, names, c := a.inputs, Names(a.inputs, g), Normalized(a, false, g);
    assert |t| == |args| by { FitsLength(w.ops, args, t, env); }
    NamesJoin(w, args, g, env, t);
    AssignIs(names, t, env);
    var env' := Assign(names, t, env);
    AssignExtends(w, pos, a, g, env, t);
    forall x | x in c
      ensures Holds(w, pos, neg, x, env')
    {
      UnifiesAre(args, g, |args|, x);
      if i: nat :| i < |args| && !IsPlainArg(args, i) && x == UnifyAt(args, g, i) {
        UnifyHolds(w, pos, neg, a, g, env, t, i);
      } else {
        assert x == Applied(a, false, names);
      }
    }
  }

  lemma FitsLength(ops: Ops, args: seq<Expr>, t: Tuple, env: Env)
    requires Fits(ops, args, t, env)
    ensures |t| == |args|
  {
  }

  lemma KeptName(args: seq<Expr>, g: nat, i: nat)
    requires i < |args| && KeepsName(args, i)
    ensures args[i].Binding? && args[i].sym != IGNORED && NameAt(args, g, i) == args[i].sym
  {
  }

  /** An argument that needs a value has that of its column. */
  lemma NotPlainFits(ops: Ops, args: seq<Expr>, t: Tuple, env: Env, i: nat)
    requires Fits(ops, args, t, env) && i < |args| && !IsPlainArg(args, i) && NamesBound(args, env)
    ensures EvalIn(ops, args[i], env) == Success(t[i])
  {
  }

  lemma ApplyMeans(w: World, pos: DB<Symbol>, neg: DB<Symbol>, a: InputAtom, g: nat, env: Env)
    requires IsApplication(a) && UserArgs(a.inputs) && UserEnv(env)
    ensures Satisfied(w, pos, neg, Normalized(a, false, g), env) <==> Sat(w, pos, neg, a, env)
  {
    hide Normalized, Extends, AllHold, Fits, NamesBound, RowsOf;
    if env' :| Extends(Normalized(a, false, g), env, env') && AllHold(w, pos, neg, Normalized(a, false, g), env') {
      ApplyFits(w, pos, neg, a, g, env, env');
    }
    if Sat(w, pos, neg, a, env) {
      var t :| t in RowsOf(w, pos, a) && Fits(w.ops, a.inputs, t, env);
      ApplyExtends(w, pos, neg, a, g, env, t);
    }
  }

  // ----- negated applications -----

  lemma NegatedFits(w: World, pos: DB<Symbol>, neg: DB<Symbol>, a: InputAtom, g: nat, env: Env, env': Env, t: Tuple)
    requires IsApplication(a) && UserArgs(a.inputs) && UserEnv(env)
    requires Extends(Normalized(a, true, g), env, env')
    requires forall i: nat :: i < |a.inputs| && !IsPlainArg(a.inputs, i) ==>
      NameAt(a.inputs, g, i) in env' && EvalIn(w.ops, a.inputs[i], env) == Success(env'[NameAt(a.inputs, g, i)])
    ensures Fits(w.ops, a.inputs, t, env) <==> Matches(Names(a.inputs, g), t, env')
  {
    hide EvalIn, Normalized, Star, Tilde, NameAt, IsPlainArg;
    var args, names := a.inputs, Names(a.inputs, g);
    if |t| == |args| {
      forall i: nat | i < |args|
        ensures (args[i].Binding? && (args[i].sym == IGNORED || args[i].sym !in env)) || EvalIn(w.ops, args[i], env) == Success(t[i]) <==>
                (names[i] in env' ==> t[i] == env'[names[i]])
      {
        NegatedArg(w, pos, neg, a, g, env, env', t, i);
      }
    }
  }

  lemma NegatedArg(w: World, pos: DB<Symbol>, neg: DB<Symbol>, a: InputAtom, g: nat, env: Env, env': Env, t: Tuple, i: nat)
    requires IsApplication(a) && UserArgs(a.inputs) && UserEnv(env) && i < |a.inputs| == |t|
    requires Extends(Normalized(a, true, g), env, env')
    requires !IsPlainArg(a.inputs, i) ==>
      NameAt(a.inputs, g, i) in env' && EvalIn(w.ops, a.inputs[i], env) == Success(env'[NameAt(a.inputs, g, i)])
    ensures (a.inputs[i].Binding? && (a.inputs[i].sym == IGNORED || a.inputs[i].sym !in env)) || EvalIn(w.ops, a.inputs[i], env) == Success(t[i]) <==>
            (NameAt(a.inputs, g, i) in env' ==> t[i] == env'[NameAt(a.inputs, g, i)])
  {
    hide Normalized, Star, Tilde, IsUser;
    var args := a.inputs;
    NameUser(args, g, i);
    if IsPlainArg(args, i) && args[i].sym == IGNORED {
      NormalizedBinds(a, true, g, NameAt(args, g, i));
      forall j: nat | j < |args| && !IsPlainArg(args, j)
        ensures NameAt(args, g, j) != NameAt(args, g, i)
      {
        if j < i { NamesDistinct(args, g, j, i); } else { NamesDistinct(args, g, i, j); }
      }
    }
  }

  lemma NegatedHolds(w: World, pos: DB<Symbol>, neg: DB<Symbol>, a: InputAtom, g: nat, env: Env, env': Env)
    requires IsApplication(a) && UserArgs(a.inputs) && UserEnv(env) && Extends(Normalized(a, true, g), env, env')
    requires forall i: nat :: i < |a.inputs| && !IsPlainArg(a.inputs, i) ==>
      NameAt(a.inputs, g, i) in env' && EvalIn(w.ops, a.inputs[i], env) == Success(env'[NameAt(a.inputs, g, i)])
    ensures Holds(w, pos, neg, Applied(a, true, Names(a.inputs, g)), env') <==>
            !exists t :: t in RowsOf(w, neg, a) && Fits(w.ops, a.inputs, t, env)
  {
    hide EvalIn, Normalized, Extends, NameAt, IsPlainArg, Fits, Matches;
    forall t
      ensures Fits(w.ops, a.inputs, t, env) <==> Matches(Names(a.inputs, g), t, env')
    {
      NegatedFits(w, pos, neg, a, g, env, env', t);
    }
  }

  lemma StarsBound(a: InputAtom, g: nat, env: Env, env': Env, i: nat)
    requires IsApplication(a) && UserArgs(a.inputs) && Extends(Normalized(a, true, g), env, env')
    requires i < |a.inputs| && !IsPlainArg(a.inputs, i)
    ensures NameAt(a.inputs, g, i) in env'
  {
    hide Normalized;
    NormalizedBinds(a, true, g, NameAt(a.inputs, g, i));
  }

  lemma FailsFrom(w: World, pos: DB<Symbol>, neg: DB<Symbol>, a: InputAtom, g: nat, env: Env, env': Env)
    requires IsApplication(a) && UserArgs(a.inputs) && UserEnv(env)
    requires var c := Normalized(a, true, g); Extends(c, env, env') && AllHold(w, pos, neg, c, env')
    ensures Fails(w, pos, neg, a, env)
  {
    hide EvalIn, NameAt, IsPlainArg, Fits, Extends, RowsOf;
    var args, c := a.inputs, Normalized(a, true, g);
    forall i: nat | i < |args| && !IsPlainArg(args, i)
      ensures NameAt(args, g, i) in env' && EvalIn(w.ops, args[i], env) == Success(env'[NameAt(args, g, i)])
    {
      StarsBound(a, g, env, env', i);
      NotPlainNotIgnored(args, i);
      ArgHas(w, pos, neg, a, true, g, env, env', i);
    }
    assert Applied(a, true, Names(args, g)) in c;
    NegatedHolds(w, pos, neg, a, g, env, env');
  }

  lemma NotPlainNotIgnored(args: seq<Expr>, i: nat)
    requires i < |args| && !IsPlainArg(args, i)
    ensures !(args[i].Binding? && args[i].sym == IGNORED) && !KeepsName(args, i)
  {
  }

  /** The values of the symbols that stand for expressions. */
  ghost function StarValues(ops: Ops, args: seq<Expr>, g: nat, env: Env): Env
    requires ArgsEvaluate(ops, args, env)
  {
    var stars := set i | 0 <= i < |args| && !IsPlainArg(args, i) :: NameAt(args, g, i);
    map s | s in stars :: (var i: nat :| i < |args| && !IsPlainArg(args, i) && NameAt(args, g, i) == s; EvalIn(ops, args[i], env).value)
  }

  lemma StarValueAt(ops: Ops, args: seq<Expr>, g: nat, env: Env, i: nat)
    requires ArgsEvaluate(ops, args, env) && UserArgs(args) && i < |args| && !IsPlainArg(args, i)
    ensures NameAt(args, g, i) in StarValues(ops, args, g, env) && StarValues(ops, args, g, env)[NameAt(args, g, i)] == EvalIn(ops, args[i], env).value
  {
    hide EvalIn, NameAt, IsPlainArg, UserArgs;
    var s := NameAt(args, g, i);
    forall j: nat | j < |args| && !IsPlainArg(args, j) && NameAt(args, g, j) == s
      ensures j == i
    {
      if j < i { NamesDistinct(args, g, j, i); } else if i < j { NamesDistinct(args, g, i, j); }
    }
  }

  lemma StarsExtend(ops: Ops, a: InputAtom, g: nat, env: Env)
    requires IsApplication(a) && UserArgs(a.inputs) && UserEnv(env) && ArgsEvaluate(ops, a.inputs, env)
    ensures Extends(Normalized(a, true, g), env, env + StarValues(ops, a.inputs, g, env))
  {
    hide EvalIn, NameAt, IsPlainArg, UserArgs;
    var args, c := a.inputs, Normalized(a, true, g);
    var stars := StarValues(ops, args, g, env);
    forall s
      ensures s in stars <==> s in GenBinds(c)
      ensures s in stars ==> s !in env
    {
      NormalizedBinds(a, true, g, s);
      if i: nat :| i < |args| && !IsPlainArg(args, i) && NameAt(args, g, i) == s {
        NotPlainNotIgnored(args, i);
        NameUser(args, g, i);
      }
    }
  }

  lemma FailsExtends(w: World, pos: DB<Symbol>, neg: DB<Symbol>, a: InputAtom, g: nat, env: Env)
    requires IsApplication(a) && UserArgs(a.inputs) && UserEnv(env) && Fails(w, pos, neg, a, env)
    ensures Satisfied(w, pos, neg, Normalized(a, true, g), env)
  {
    hide EvalIn, NameAt, IsPlainArg, Fits, RowsOf, UserArgs, Extends, StarValues;
    var args, c := a.inputs, Normalized(a, true, g);
    var stars := StarValues(w.ops, args, g, env);
    var env' := env + stars;
    StarsExtend(w.ops, a, g, env);
    forall i: nat | i < |args| && !IsPlainArg(args, i)
      ensures NameAt(args, g, i) in env' && EvalIn(w.ops, args[i], env) == Success(env'[NameAt(args, g, i)])
    {
      StarValueAt(w.ops, args, g, env, i);
    }
    NegatedHolds(w, pos, neg, a, g, env, env');
    forall x | x in c
      ensures Holds(w, pos, neg, x, env')
    {
      UnifiesAre(args, g, |args|, x);
      if i: nat :| i < |args| && !IsPlainArg(args, i) && x == UnifyAt(args, g, i) {
        assert UserExpr(args[i]) by { UserArgAt(args, i); }
        UserFrame(w.ops, c, args[i], env, env');
      } else {
        assert x == Applied(a, true, Names(args, g));
      }
    }
  }

  lemma UserArgAt(args: seq<Expr>, i: nat)
    requires UserArgs(args) && i < |args|
    ensures UserExpr(args[i])
  {
  }

  lemma NegatedMeans(w: World, pos: DB<Symbol>, neg: DB<Symbol>, a: InputAtom, g: nat, env: Env)
    requires IsApplication(a) && UserArgs(a.inputs) && UserEnv(env)
    ensures Satisfied(w, pos, neg, Normalized(a, true, g), env) <==> Fails(w, pos, neg, a, env)
  {
    hide Normalized, Extends, AllHold, Fails;
    if env' :| Extends(Normalized(a, true, g), env, env') && AllHold(w, pos, neg, Normalized(a, true, g), env') {
      FailsFrom(w, pos, neg, a, g, env, env');
    }
    if Fails(w, pos, neg, a, env) {
      FailsExtends(w, pos, neg, a, g, env);
    }
  }

  // ----- conjunctions with symbols of their own -----

  /** Every variable is the user's or was generated in the given range. */
  ghost predicate Ranged(c: Conj, lo: nat, hi: nat) {
    forall x, s :: x in c && s in AtomVars(x) ==> IsUser(s) || GeneratedIn(s, lo, hi)
  }

  lemma RangedGen(c: Conj, lo: nat, hi: nat, s: Symbol)
    requires Ranged(c, lo, hi) && s in GenBinds(c)
    ensures GeneratedIn(s, lo, hi)
  {
    hide GeneratedIn, IsUser, Binds;
    var l :| 0 <= l < |c| && s in Binds(c[l]);
    assert c[l] in c && s in AtomVars(c[l]);
  }

  lemma GenBindsJoin(a: Conj, b: Conj)
    ensures GenBinds(a + b) == GenBinds(a) + GenBinds(b)
  {
    hide Binds, IsUser;
    forall s
      ensures s in BodyBinds(a + b) <==> s in BodyBinds(a) || s in BodyBinds(b)
    {
      if s in BodyBinds(a + b) {
        var l :| 0 <= l < |a + b| && s in Binds((a + b)[l]);
        if l < |a| {
          assert s in Binds(a[l]);
        } else {
          assert s in Binds(b[l - |a|]);
        }
      }
      if s in BodyBinds(a) {
        var l :| 0 <= l < |a| && s in Binds(a[l]);
        assert s in Binds((a + b)[l]);
      }
      if s in BodyBinds(b) {
        var l :| 0 <= l < |b| && s in Binds(b[l]);
        assert s in Binds((a + b)[|a| + l]);
      }
    }
  }

  /** Under an assignment that gives the same generated symbols of the range values, atoms hold alike. */
  lemma RangedFrame(w: World, pos: DB<Symbol>, neg: DB<Symbol>, c: Conj, lo: nat, hi: nat, env: Env, a: Env, b: Env)
    requires UserEnv(env) && Ranged(c, lo, hi)
    requires (forall s :: IsUser(s) || GeneratedIn(s, lo, hi) ==> (s in a <==> s in b) && (s in a ==> a[s] == b[s]))
    ensures AllHold(w, pos, neg, c, a) <==> AllHold(w, pos, neg, c, b)
  {
    hide Holds, GeneratedIn, IsUser, AtomVars;
    forall x | x in c
      ensures Holds(w, pos, neg, x, a) <==> Holds(w, pos, neg, x, b)
    {
      HoldsFrame(w, pos, neg, x, a, b);
    }
  }

  lemma SplitSatisfied(w: World, pos: DB<Symbol>, neg: DB<Symbol>, a: Conj, b: Conj, lo: nat, mid: nat, hi: nat, env: Env)
    requires UserEnv(env) && Ranged(a, lo, mid) && Ranged(b, mid, hi)
    ensures Satisfied(w, pos, neg, a + b, env) ==> Satisfied(w, pos, neg, a, env) && Satisfied(w, pos, neg, b, env)
  {
    hide Holds, GeneratedIn, IsUser, Ranged, GenBinds, AllHold;
    if Satisfied(w, pos, neg, a + b, env) {
      GenBindsJoin(a, b);
      var env' :| Extends(a + b, env, env') && AllHold(w, pos, neg, a + b, env');
      AllHoldParts(w, pos, neg, a, b, env');
      var ea, eb := Restrict(env', env.Keys + GenBinds(a)), Restrict(env', env.Keys + GenBinds(b));
      forall s
        ensures IsUser(s) || GeneratedIn(s, lo, mid) ==> (s in ea <==> s in env')
        ensures IsUser(s) || GeneratedIn(s, mid, hi) ==> (s in eb <==> s in env')
      {
        OwnRange(a, b, lo, mid, hi, s);
      }
      RangedFrame(w, pos, neg, a, lo, mid, env, env', ea);
      RangedFrame(w, pos, neg, b, mid, hi, env, env', eb);
      assert Extends(a, env, ea) && Extends(b, env, eb);
    }
  }

  lemma JoinSatisfied(w: World, pos: DB<Symbol>, neg: DB<Symbol>, a: Conj, b: Conj, lo: nat, mid: nat, hi: nat, env: Env)
    requires UserEnv(env) && Ranged(a, lo, mid) && Ranged(b, mid, hi)
    requires Satisfied(w, pos, neg, a, env) && Satisfied(w, pos, neg, b, env)
    ensures Satisfied(w, pos, neg, a + b, env)
  {
    hide Holds, GeneratedIn, IsUser, Ranged, GenBinds, AllHold;
    GenBindsJoin(a, b);
    var ea :| Extends(a, env, ea) && AllHold(w, pos, neg, a, ea);
    var eb :| Extends(b, env, eb) && AllHold(w, pos, neg, b, eb);
    var env' := ea + eb;
    forall s
      ensures IsUser(s) || GeneratedIn(s, lo, mid) ==> (s in ea <==> s in env') && (s in ea ==> ea[s] == env'[s])
      ensures IsUser(s) || GeneratedIn(s, mid, hi) ==> (s in eb <==> s in env') && (s in eb ==> eb[s] == env'[s])
    {
      OwnRange(a, b, lo, mid, hi, s);
    }
    RangedFrame(w, pos, neg, a, lo, mid, env, ea, env');
    RangedFrame(w, pos, neg, b, mid, hi, env, eb, env');
    AllHoldParts(w, pos, neg, a, b, env');
    assert Extends(a + b, env, env');
  }

  lemma AllHoldParts(w: World, pos: DB<Symbol>, neg: DB<Symbol>, a: Conj, b: Conj, env: Env)
    ensures AllHold(w, pos, neg, a + b, env) <==> AllHold(w, pos, neg, a, env) && AllHold(w, pos, neg, b, env)
  {
    hide Holds;
    forall x
      ensures x in a + b <==> x in a || x in b
    {
    }
  }

  /** A generated symbol is bound by the conjunction of its range, or by none. */
  lemma OwnRange(a: Conj, b: Conj, lo: nat, mid: nat, hi: nat, s: Symbol)
    requires Ranged(a, lo, mid) && Ranged(b, mid, hi)
    ensures IsUser(s) ==> s !in GenBinds(a) && s !in GenBinds(b)
    ensures GeneratedIn(s, lo, mid) ==> s !in GenBinds(b)
    ensures GeneratedIn(s, mid, hi) ==> s !in GenBinds(a)
  {
    hide Ranged, GeneratedIn;
    GeneratedOnce(s, lo, mid, hi);
    if s in GenBinds(a) {
      RangedGen(a, lo, mid, s);
    }
    if s in GenBinds(b) {
      RangedGen(b, mid, hi, s);
    }
  }

  // ----- ranges of a whole normal form -----

  ghost predicate UserAtom(a: InputAtom)
    decreases a, 1
  {
    match a
    case InputRule(_, args) => UserArgs(args)
    case InputRelation(_, args, _) => UserArgs(args)
    case InputPredicate(e) => UserExpr(e)
    case Negation(b) => UserAtom(b)
    case Conjunction(bs) => AllUser(bs)
    case Disjunction(bs) => AllUser(bs)
    case InputUnification(b, e, _) => IsUser(b) && UserExpr(e)
    case InputSearch(_, q, bs) => IsUser(q) && forall i :: 0 <= i < |bs| ==> IsUser(bs[i])
  }

  ghost predicate AllUser(bs: seq<InputAtom>)
    decreases bs, 0
  {
    bs == [] || (UserAtom(bs[0]) && AllUser(bs[1..]))
  }

  lemma {:induction false} EachUser(bs: seq<InputAtom>)
    ensures AllUser(bs) <==> forall i :: 0 <= i < |bs| ==> UserAtom(bs[i])
    decreases |bs|
  {
    hide UserAtom;
    if bs != [] {
      EachUser(bs[1..]);
      assert forall i :: 0 < i < |bs| ==> bs[i] == bs[1..][i - 1];
    }
  }

  lemma NormalizedRanged(a: InputAtom, negated: bool, g: nat)
    requires IsApplication(a) && UserArgs(a.inputs)
    ensures Ranged(Normalized(a, negated, g), g, Counter(a.inputs, g, |a.inputs|))
  {
    hide IsPlainArg, NameAt, GeneratedIn, IsUser, Counter;
    var args, c := a.inputs, Normalized(a, negated, g);
    var hi := Counter(args, g, |args|);
    forall i: nat | i < |args|
      ensures IsUser(NameAt(args, g, i)) || GeneratedIn(NameAt(args, g, i), g, hi)
    {
      NameUser(args, g, i);
      if !KeepsName(args, i) {
        NameRange(args, g, i);
      }
    }
    forall x, s | x in c && s in AtomVars(x)
      ensures IsUser(s) || GeneratedIn(s, g, hi)
    {
      UnifiesAre(args, g, |args|, x);
      if i: nat :| i < |args| && !IsPlainArg(args, i) && x == UnifyAt(args, g, i) {
        assert s == NameAt(args, g, i) || s in Vars(args[i]);
      } else {
        assert x == Applied(a, negated, Names(args, g));
        var i: nat :| i < |args| && Names(args, g)[i] == s;
      }
    }
  }

  lemma UserAtomRanged(x: Atom<Symbol>, g: nat)
    requires forall s :: s in AtomVars(x) ==> IsUser(s)
    ensures Ranged([x], g, g)
  {
  }

  lemma RangedWider(c: Conj, lo: nat, hi: nat, lo': nat, hi': nat)
    requires Ranged(c, lo, hi) && lo' <= lo && hi <= hi'
    ensures Ranged(c, lo', hi')
  {
    hide IsUser, AtomVars;
    forall s
      ensures GeneratedIn(s, lo, hi) ==> GeneratedIn(s, lo', hi')
    {
    }
  }

  lemma RangedJoin(a: Conj, b: Conj, lo: nat, mid: nat, hi: nat)
    requires Ranged(a, lo, mid) && Ranged(b, mid, hi) && lo <= mid <= hi
    ensures Ranged(a + b, lo, hi)
  {
    RangedWider(a, lo, mid, lo, hi);
    RangedWider(b, mid, hi, lo, hi);
    hide GeneratedIn, IsUser, AtomVars;
  }

  lemma {:induction false} CrossHas(left: Alternatives, right: Alternatives, c: Conj)
    ensures c in Cross(left, right) <==> exists l, r :: l in left && r in right && c == l + r
    decreases |left|
  {
    if left != [] {
      var n := |left| - 1;
      CrossHas(left[..n], right, c);
      assert left == left[..n] + [left[n]];
      if c in Each(left[n], right) {
        var i :| 0 <= i < |right| && Each(left[n], right)[i] == c;
        assert left[n] in left && right[i] in right && c == left[n] + right[i];
      }
      if l, r :| l in left && r in right && c == l + r {
        if l == left[n] {
          var i :| 0 <= i < |right| && right[i] == r;
          assert Each(left[n], right)[i] == c;
        } else {
          assert l in left[..n];
        }
      }
    }
  }

  ghost predicate AllRanged(out: Out, g: nat) {
    g <= out.next && forall c :: c in out.alts ==> Ranged(c, g, out.next)
  }

  lemma {:induction false} DnfRanged(ops: Ops, a: InputAtom, g: nat)
    requires UserAtom(a) && Dnf(ops, a, g).Success?
    ensures AllRanged(Dnf(ops, a, g).value, g)
    decreases a, 1
  {
    hide Ranged, Normalized, Counter, Folded, Vars, IsUser, DnfAnd, DnfOr;
    match a
    case InputRule(_, _) => NormalizedRanged(a, false, g);
    case InputRelation(_, _, _) => NormalizedRanged(a, false, g);
    case InputPredicate(e) =>
      FoldKeepsVars(ops, e);
      UserAtomRanged(Predicate(Folded(ops, e).value), g);
    case Negation(b) => NormalizedRanged(b, true, g);
    case Conjunction(bs) => DnfAndRanged(ops, bs, g);
    case Disjunction(bs) => DnfOrRanged(ops, bs, g);
    case InputUnification(b, e, m) => UserAtomRanged(Unification(b, e, m), g);
    case InputSearch(s, q, bs) => UserAtomRanged(Search(s, q, bs), g);
  }

  lemma {:induction false} DnfAndRanged(ops: Ops, bs: seq<InputAtom>, g: nat)
    requires bs != [] && AllUser(bs) && DnfAnd(ops, bs, g).Success?
    ensures AllRanged(DnfAnd(ops, bs, g).value, g)
    decreases bs, 0
  {
    hide Ranged, Dnf, UserAtom, Cross;
    EachUser(bs);
    if |bs| == 1 {
      DnfRanged(ops, bs[0], g);
    } else {
      var n := |bs| - 1;
      EachUser(bs[..n]);
      DnfAndRanged(ops, bs[..n], g);
      var l := DnfAnd(ops, bs[..n], g).value;
      DnfRanged(ops, bs[n], l.next);
      var r := Dnf(ops, bs[n], l.next).value;
      forall c | c in Cross(l.alts, r.alts)
        ensures Ranged(c, g, r.next)
      {
        CrossHas(l.alts, r.alts, c);
        var x, y :| x in l.alts && y in r.alts && c == x + y;
        RangedJoin(x, y, g, l.next, r.next);
      }
    }
  }

  lemma {:induction false} DnfOrRanged(ops: Ops, bs: seq<InputAtom>, g: nat)
    requires AllUser(bs) && DnfOr(ops, bs, g).Success?
    ensures AllRanged(DnfOr(ops, bs, g).value, g)
    decreases bs, 0
  {
    hide Ranged, Dnf, UserAtom;
    EachUser(bs);
    if bs != [] {
      var n := |bs| - 1;
      EachUser(bs[..n]);
      DnfOrRanged(ops, bs[..n], g);
      var l := DnfOr(ops, bs[..n], g).value;
      DnfRanged(ops, bs[n], l.next);
      var r := Dnf(ops, bs[n], l.next).value;
      forall c | c in l.alts + r.alts
        ensures Ranged(c, g, r.next)
      {
        if c in l.alts {
          RangedWider(c, g, l.next, g, r.next);
        } else {
          RangedWider(c, l.next, r.next, g, r.next);
        }
      }
    }
  }

  // ----- the normal form means the same -----

  /** No double negation dropped from a predicate of the body stands over a value that is no truth value. */
  ghost predicate PredicatesRemember(w: World, a: InputAtom, env: Env)
    decreases a, 1
  {
    match a
    case InputPredicate(e) => RemembersByName(w.ops, e, env)
    case Negation(b) => PredicatesRemember(w, b, env)
    case Conjunction(bs) => AllPredicatesRemember(w, bs, env)
    case Disjunction(bs) => AllPredicatesRemember(w, bs, env)
    case _ => true
  }

  ghost predicate AllPredicatesRemember(w: World, bs: seq<InputAtom>, env: Env)
    decreases bs, 0
  {
    bs == [] || (PredicatesRemember(w, bs[0], env) && AllPredicatesRemember(w, bs[1..], env))
  }

  lemma {:induction false} EachRemembers(w: World, bs: seq<InputAtom>, env: Env)
    ensures AllPredicatesRemember(w, bs, env) <==> forall i :: 0 <= i < |bs| ==> PredicatesRemember(w, bs[i], env)
    decreases |bs|
  {
    hide PredicatesRemember;
    if bs != [] {
      EachRemembers(w, bs[1..], env);
      assert forall i :: 0 < i < |bs| ==> bs[i] == bs[1..][i - 1];
    }
  }

  lemma {:induction false} LastSat(w: World, pos: DB<Symbol>, neg: DB<Symbol>, bs: seq<InputAtom>, env: Env)
    requires bs != []
    ensures AllSat(w, pos, neg, bs, env) <==> AllSat(w, pos, neg, bs[..|bs| - 1], env) && Sat(w, pos, neg, bs[|bs| - 1], env)
    ensures SomeSat(w, pos, neg, bs, env) <==> SomeSat(w, pos, neg, bs[..|bs| - 1], env) || Sat(w, pos, neg, bs[|bs| - 1], env)
    decreases |bs|
  {
    hide Sat;
    if |bs| > 1 {
      LastSat(w, pos, neg, bs[1..], env);
      assert bs[1..][..|bs| - 2] == bs[..|bs| - 1][1..];
      assert bs[1..][|bs| - 2] == bs[|bs| - 1];
    } else {
      assert bs[..|bs| - 1] == [] && bs[1..] == [];
    }
  }

  /** A single atom over the user's variables. */
  lemma SingleSatisfied(w: World, pos: DB<Symbol>, neg: DB<Symbol>, x: Atom<Symbol>, env: Env)
    requires forall s :: s in AtomVars(x) ==> IsUser(s)
    ensures Satisfied(w, pos, neg, [x], env) <==> Holds(w, pos, neg, x, env)
  {
    hide Holds, IsUser;
    assert BodyBinds([x]) == Binds(x) by { BodyBindsOne(x); }
    assert GenBinds([x]) == {};
    if env' :| Extends([x], env, env') && AllHold(w, pos, neg, [x], env') {
      assert env' == env;
      assert x in [x];
    }
    if Holds(w, pos, neg, x, env) {
      assert Extends([x], env, env);
    }
  }

  /** What the alternatives say about the body. */
  ghost predicate Means(w: World, pos: DB<Symbol>, neg: DB<Symbol>, alts: Alternatives, holds: bool, remembers: bool, env: Env) {
    && (holds ==> SomeSatisfied(w, pos, neg, alts, env))
    && (remembers && SomeSatisfied(w, pos, neg, alts, env) ==> holds)
  }

  lemma OneAlternative(w: World, pos: DB<Symbol>, neg: DB<Symbol>, c: Conj, env: Env)
    ensures SomeSatisfied(w, pos, neg, [c], env) <==> Satisfied(w, pos, neg, c, env)
  {
    hide Satisfied;
    assert c in [c];
  }

  lemma PredicateMeans(w: World, pos: DB<Symbol>, neg: DB<Symbol>, e: Expr, env: Env)
    requires NegateIs(w.ops) && UserExpr(e) && Folded(w.ops, e).Success?
    ensures Means(w, pos, neg, [[Predicate(Folded(w.ops, e).value)]], EvalIn(w.ops, e, env) == Success(Bool(true)), RemembersByName(w.ops, e, env), env)
  {
    hide NegateIs, Folded, EvalIn, RemembersByName;
    var f := Folded(w.ops, e).value;
    FoldRefinesByName(w.ops, e, env);
    if RemembersByName(w.ops, e, env) {
      FoldAgreesByName(w.ops, e, env);
    }
    FoldKeepsVars(w.ops, e);
    SingleSatisfied(w, pos, neg, Predicate(f), env);
    OneAlternative(w, pos, neg, [Predicate(f)], env);
  }

  lemma {:induction false} DnfMeans(w: World, pos: DB<Symbol>, neg: DB<Symbol>, a: InputAtom, g: nat, env: Env)
    requires NegateIs(w.ops) && IsNnf(a) && UserAtom(a) && UserEnv(env) && Dnf(w.ops, a, g).Success?
    ensures Means(w, pos, neg, Dnf(w.ops, a, g).value.alts, Sat(w, pos, neg, a, env), PredicatesRemember(w, a, env), env)
    decreases a, 1
  {
    hide NegateIs, Normalized, Counter, Folded, RemembersByName, EvalIn, IsUser, DnfAnd, DnfOr, SomeSatisfied, Satisfied, Holds, Vars, UserEnv;
    match a
    case InputRule(_, _) =>
      ApplyMeans(w, pos, neg, a, g, env);
      OneAlternative(w, pos, neg, Normalized(a, false, g), env);
    case InputRelation(_, _, _) =>
      ApplyMeans(w, pos, neg, a, g, env);
      OneAlternative(w, pos, neg, Normalized(a, false, g), env);
    case InputPredicate(e) => PredicateMeans(w, pos, neg, e, env);
    case Negation(b) =>
      NegatedMeans(w, pos, neg, b, g, env);
      OneAlternative(w, pos, neg, Normalized(b, true, g), env);
    case Conjunction(bs) => DnfAndMeans(w, pos, neg, bs, g, env);
    case Disjunction(bs) => DnfOrMeans(w, pos, neg, bs, g, env);
    case InputUnification(b, e, m) =>
      SingleSatisfied(w, pos, neg, Unification(b, e, m), env);
      OneAlternative(w, pos, neg, [Unification(b, e, m)], env);
    case InputSearch(s, q, bs) =>
      SingleSatisfied(w, pos, neg, Search(s, q, bs), env);
      OneAlternative(w, pos, neg, [Search(s, q, bs)], env);
  }

  lemma {:induction false} EachNnf(bs: seq<InputAtom>)
    ensures AllNnf(bs) <==> forall i :: 0 <= i < |bs| ==> IsNnf(bs[i])
    decreases |bs|
  {
    hide IsNnf;
    if bs != [] {
      EachNnf(bs[1..]);
      assert forall i :: 0 < i < |bs| ==> bs[i] == bs[1..][i - 1];
    }
  }

  /** Distribution: an alternative of the product is satisfied exactly if one of each side is. */
  lemma CrossSatisfied(w: World, pos: DB<Symbol>, neg: DB<Symbol>, l: Alternatives, r: Alternatives, lo: nat, mid: nat, hi: nat, env: Env)
    requires UserEnv(env) && (forall c :: c in l ==> Ranged(c, lo, mid)) && (forall c :: c in r ==> Ranged(c, mid, hi))
    ensures SomeSatisfied(w, pos, neg, Cross(l, r), env) <==> SomeSatisfied(w, pos, neg, l, env) && SomeSatisfied(w, pos, neg, r, env)
  {
    hide Ranged, Satisfied, Cross, UserEnv;
    if SomeSatisfied(w, pos, neg, Cross(l, r), env) {
      var c :| c in Cross(l, r) && Satisfied(w, pos, neg, c, env);
      CrossHas(l, r, c);
      var x, y :| x in l && y in r && c == x + y;
      SplitSatisfied(w, pos, neg, x, y, lo, mid, hi, env);
    }
    if SomeSatisfied(w, pos, neg, l, env) && SomeSatisfied(w, pos, neg, r, env) {
      var x :| x in l && Satisfied(w, pos, neg, x, env);
      var y :| y in r && Satisfied(w, pos, neg, y, env);
      JoinSatisfied(w, pos, neg, x, y, lo, mid, hi, env);
      CrossHas(l, r, x + y);
    }
  }

  lemma {:induction false} DnfAndMeans(w: World, pos: DB<Symbol>, neg: DB<Symbol>, bs: seq<InputAtom>, g: nat, env: Env)
    requires NegateIs(w.ops) && bs != [] && AllNnf(bs) && AllUser(bs) && UserEnv(env) && DnfAnd(w.ops, bs, g).Success?
    ensures Means(w, pos, neg, DnfAnd(w.ops, bs, g).value.alts, AllSat(w, pos, neg, bs, env), AllPredicatesRemember(w, bs, env), env)
    decreases bs, 0
  {
    hide NegateIs, Dnf, UserAtom, IsNnf, PredicatesRemember, Sat, SomeSatisfied, Cross, UserEnv, Ranged;
    EachUser(bs);
    EachNnf(bs);
    EachRemembers(w, bs, env);
    LastSat(w, pos, neg, bs, env);
    var n := |bs| - 1;
    if n == 0 {
      DnfMeans(w, pos, neg, bs[0], g, env);
    } else {
      EachUser(bs[..n]);
      EachNnf(bs[..n]);
      EachRemembers(w, bs[..n], env);
      var l := DnfAnd(w.ops, bs[..n], g).value;
      var r := Dnf(w.ops, bs[n], l.next).value;
      DnfAndMeans(w, pos, neg, bs[..n], g, env);
      DnfMeans(w, pos, neg, bs[n], l.next, env);
      DnfAndRanged(w.ops, bs[..n], g);
      DnfRanged(w.ops, bs[n], l.next);
      CrossSatisfied(w, pos, neg, l.alts, r.alts, g, l.next, r.next, env);
    }
  }

  lemma EitherSatisfied(w: World, pos: DB<Symbol>, neg: DB<Symbol>, l: Alternatives, r: Alternatives, env: Env)
    ensures SomeSatisfied(w, pos, neg, l + r, env) <==> SomeSatisfied(w, pos, neg, l, env) || SomeSatisfied(w, pos, neg, r, env)
    ensures !SomeSatisfied(w, pos, neg, [], env)
  {
    hide Satisfied;
    forall c
      ensures c in l + r <==> c in l || c in r
    {
    }
  }

  lemma {:induction false} DnfOrMeans(w: World, pos: DB<Symbol>, neg: DB<Symbol>, bs: seq<InputAtom>, g: nat, env: Env)
    requires NegateIs(w.ops) && AllNnf(bs) && AllUser(bs) && UserEnv(env) && DnfOr(w.ops, bs, g).Success?
    ensures Means(w, pos, neg, DnfOr(w.ops, bs, g).value.alts, SomeSat(w, pos, neg, bs, env), AllPredicatesRemember(w, bs, env), env)
    decreases bs, 0
  {
    hide NegateIs, Dnf, UserAtom, IsNnf, PredicatesRemember, Sat, SomeSatisfied, UserEnv;
    EitherSatisfied(w, pos, neg, [], [], env);
    if bs != [] {
      EachUser(bs);
      EachNnf(bs);
      EachRemembers(w, bs, env);
      LastSat(w, pos, neg, bs, env);
      var n := |bs| - 1;
      EachUser(bs[..n]);
      EachNnf(bs[..n]);
      EachRemembers(w, bs[..n], env);
      var l := DnfOr(w.ops, bs[..n], g).value;
      var r := Dnf(w.ops, bs[n], l.next).value;
      DnfOrMeans(w, pos, neg, bs[..n], g, env);
      DnfMeans(w, pos, neg, bs[n], l.next, env);
      EitherSatisfied(w, pos, neg, l.alts, r.alts, env);
    }
  }

  // ----- the whole conversion -----

  method DisjunctiveNormalForm(ops: Ops, a: InputAtom) returns (r: Result<Alternatives>)
    ensures r.Success? <==> Nnf(a).Success? && Dnf(ops, Nnf(a).value, 0).Success?
    ensures r.Success? ==> r.value == Dnf(ops, Nnf(a).value, 0).value.alts
  {
    hide Nnf, Dnf;
    var n := Nnf(a);
    if n.Failure? {
      return Failure;
    }
    var gen := new TempSymbGen();
    r := DoDnf(ops, n.value, gen);
  }

  /** Nothing is forgotten when the predicates of the body, negated where they stand under an odd number of negations, are folded. */
  ghost predicate TypesKept(w: World, a: InputAtom, negated: bool, env: Env)
    decreases a, 1
  {
    match a
    case InputPredicate(e) => RemembersByName(w.ops, if negated then Apply(NEGATE, [e]) else e, env)
    case Negation(b) => TypesKept(w, b, !negated, env)
    case Conjunction(bs) => AllTypesKept(w, bs, negated, env)
    case Disjunction(bs) => AllTypesKept(w, bs, negated, env)
    case _ => true
  }

  ghost predicate AllTypesKept(w: World, bs: seq<InputAtom>, negated: bool, env: Env)
    decreases bs, 0
  {
    bs == [] || (TypesKept(w, bs[0], negated, env) && AllTypesKept(w, bs[1..], negated, env))
  }

  lemma NegatedVars(e: Expr)
    ensures Vars(Apply(NEGATE, [e])) == Vars(e)
  {
    assert [e][0] == e;
  }

  /** Pushing negation inwards keeps to the user's variables, and to predicates that forget nothing. */
  lemma {:induction false} NnfKeeps(w: World, a: InputAtom, env: Env)
    requires UserAtom(a)
    ensures Nnf(a).Success? ==> UserAtom(Nnf(a).value) && (TypesKept(w, a, false, env) ==> PredicatesRemember(w, Nnf(a).value, env))
    ensures NnfNot(a).Success? ==> UserAtom(NnfNot(a).value) && (TypesKept(w, a, true, env) ==> PredicatesRemember(w, NnfNot(a).value, env))
    decreases a, 1
  {
    hide RemembersByName, Vars, IsUser;
    match a
    case Negation(b) => NnfKeeps(w, b, env);
    case Conjunction(bs) => NnfAllKeep(w, bs, env);
    case Disjunction(bs) => NnfAllKeep(w, bs, env);
    case InputPredicate(e) => NegatedVars(e);
    case _ =>
  }

  lemma {:induction false} NnfAllKeep(w: World, bs: seq<InputAtom>, env: Env)
    requires AllUser(bs)
    ensures NnfAll(bs).Success? ==> AllUser(NnfAll(bs).value) && (AllTypesKept(w, bs, false, env) ==> AllPredicatesRemember(w, NnfAll(bs).value, env))
    ensures NnfNotAll(bs).Success? ==>
      AllUser(NnfNotAll(bs).value) && (AllTypesKept(w, bs, true, env) ==> AllPredicatesRemember(w, NnfNotAll(bs).value, env))
    decreases bs, 0
  {
    hide Nnf, NnfNot, UserAtom, TypesKept, PredicatesRemember;
    if bs != [] {
      NnfKeeps(w, bs[0], env);
      NnfAllKeep(w, bs[1..], env);
      var ns, ms := NnfAll(bs), NnfNotAll(bs);
      if ns.Success? {
        assert ns.value[0] == Nnf(bs[0]).value && ns.value[1..] == NnfAll(bs[1..]).value;
      }
      if ms.Success? {
        assert ms.value[0] == NnfNot(bs[0]).value && ms.value[1..] == NnfNotAll(bs[1..]).value;
      }
    }
  }

  /** For every assignment of the user's variables: if the body holds, some alternative does with suitable values of the
      generated symbols; and conversely where folding its predicates forgets nothing. */
  lemma NormalFormMeans(w: World, pos: DB<Symbol>, neg: DB<Symbol>, a: InputAtom, env: Env)
    requires NegateIs(w.ops) && UserEnv(env) && UserAtom(a)
    requires Nnf(a).Success? && Dnf(w.ops, Nnf(a).value, 0).Success?
    ensures var alts := Dnf(w.ops, Nnf(a).value, 0).value.alts;
            && (Sat(w, pos, neg, a, env) ==> SomeSatisfied(w, pos, neg, alts, env))
            && (TypesKept(w, a, false, env) && SomeSatisfied(w, pos, neg, alts, env) ==> Sat(w, pos, neg, a, env))
  {
    hide NegateIs, Nnf, Dnf, Sat, UserAtom, SomeSatisfied, UserEnv, IsNnf, TypesKept, PredicatesRemember;
    NnfMeans(w, pos, neg, a, env);
    NnfKeeps(w, a, env);
    DnfMeans(w, pos, neg, Nnf(a).value, 0, env);
  }

  /** Every predicate of the body has a truth value. */
  ghost predicate TruthValued(w: World, a: InputAtom, env: Env)
    decreases a, 1
  {
    match a
    case InputPredicate(e) => var v := EvalIn(w.ops, e, env); v.Success? && v.value.Bool?
    case Negation(b) => TruthValued(w, b, env)
    case Conjunction(bs) => AllTruthValued(w, bs, env)
    case Disjunction(bs) => AllTruthValued(w, bs, env)
    case _ => true
  }

  ghost predicate AllTruthValued(w: World, bs: seq<InputAtom>, env: Env)
    decreases bs, 0
  {
    bs == [] || (TruthValued(w, bs[0], env) && AllTruthValued(w, bs[1..], env))
  }

  lemma NegatedTruth(ops: Ops, e: Expr, env: Env)
    requires NegateIs(ops) && EvalIn(ops, e, env).Success? && EvalIn(ops, e, env).value.Bool?
    ensures EvalIn(ops, Apply(NEGATE, [e]), env).Success?
  {
    var v := EvalIn(ops, e, env).value;
    assert [e][1..] == [] && [e][0] == e;
    assert EvalAllIn(ops, [e], env) == Success([v] + []);
    assert ([v] + [])[0] == v;
  }

  /** Where all predicates have truth values, nothing is forgotten. */
  lemma {:induction false} TruthKeepsTypes(w: World, a: InputAtom, negated: bool, env: Env)
    requires NegateIs(w.ops) && TruthValued(w, a, env)
    ensures TypesKept(w, a, negated, env)
    decreases a, 1
  {
    hide NegateIs, EvalIn, RemembersByName;
    match a
    case InputPredicate(e) =>
      NegatedTruth(w.ops, e, env);
      ValueRemembersByName(w.ops, if negated then Apply(NEGATE, [e]) else e, env);
    case Negation(b) => TruthKeepsTypes(w, b, !negated, env);
    case Conjunction(bs) => AllTruthKeepTypes(w, bs, negated, env);
    case Disjunction(bs) => AllTruthKeepTypes(w, bs, negated, env);
    case _ =>
  }

  lemma {:induction false} AllTruthKeepTypes(w: World, bs: seq<InputAtom>, negated: bool, env: Env)
    requires NegateIs(w.ops) && AllTruthValued(w, bs, env)
    ensures AllTypesKept(w, bs, negated, env)
    decreases bs, 0
  {
    hide NegateIs, TruthValued, TypesKept;
    if bs != [] {
      TruthKeepsTypes(w, bs[0], negated, env);
      AllTruthKeepTypes(w, bs[1..], negated, env);
    }
  }

  /** `is_num(!!x)` fails for a number, and the alternative made of it holds. */
  lemma AlternativeHoldsWrongly(w: World, pos: DB<Symbol>, neg: DB<Symbol>, v: DataValue)
    requires NegateIs(w.ops) && !v.Bool? && w.ops("OP_IS_NUM", [v]) == Success(Bool(true))
    ensures var a := InputPredicate(Apply("OP_IS_NUM", [Apply(NEGATE, [Apply(NEGATE, [Binding("x", None)])])]));
            && Nnf(a).Success? && Dnf(w.ops, Nnf(a).value, 0).Success?
            && !Sat(w, pos, neg, a, map["x" := v]) && SomeSatisfied(w, pos, neg, Dnf(w.ops, Nnf(a).value, 0).value.alts, map["x" := v])
  {
    var env, b := map["x" := v], Binding("x", None);
    var one := Apply(NEGATE, [b]);
    var two := Apply(NEGATE, [one]);
    var e := Apply("OP_IS_NUM", [two]);
    FoldDouble(w.ops, b);
    assert [two][1..] == [] && [two][0] == two && [b][1..] == [] && [b][0] == b;
    assert FoldedAll(w.ops, [two]) == Success([b] + []) && [b] + [] == [b];
    assert Folded(w.ops, e) == Success(Apply("OP_IS_NUM", [b]));
    var f := Apply("OP_IS_NUM", [b]);
    assert EvalAllIn(w.ops, [b], env) == Success([v] + []) && [v] + [] == [v];
    assert EvalIn(w.ops, f, env) == Success(Bool(true));
    assert EvalIn(w.ops, one, env) == Failure;
    assert [one][1..] == [] && [one][0] == one;
    assert EvalAllIn(w.ops, [one], env) == Failure;
    assert EvalAllIn(w.ops, [two], env) == Failure;
    assert Vars(b) == {"x"} && Vars(f) == {"x"};
    assert IsUser("x");
    SingleSatisfied(w, pos, neg, Predicate(f), env);
    OneAlternative(w, pos, neg, [Predicate(f)], env);
  }

  lemma FoldDouble(ops: Ops, b: Expr)
    requires b.Binding?
    ensures Folded(ops, Apply(NEGATE, [Apply(NEGATE, [b])])) == Success(b)
  {
    var one := Apply(NEGATE, [b]);
    assert [b][1..] == [] && [b][0] == b && [b] + [] == [b] && [one][1..] == [] && [one][0] == one && [one] + [] == [one];
    assert FoldedAll(ops, [b]) == Success([b]);
    assert !AllConst([b]);
    assert Folded(ops, one) == Success(one);
    assert FoldedAll(ops, [one]) == Success([one]);
    assert !AllConst([one]);
  }

  // ----- repeated head variables -----

  function Triple(n: nat): Symbol {
    "***" + Digits(n)
  }

  predicate IsFirst(head: seq<Symbol>, i: nat)
    requires i < |head|
  {
    head[i] !in head[..i]
  }

  function Repeats(head: seq<Symbol>, i: nat): nat
    requires i <= |head|
  {
    if i == 0 then 0 else Repeats(head, i - 1) + if IsFirst(head, i - 1) then 0 else 1
  }

  function HeadAt(head: seq<Symbol>, i: nat): Symbol
    requires i < |head|
  {
    if IsFirst(head, i) then head[i] else Triple(Repeats(head, i))
  }

  /** Each repeated head variable gets a symbol of its own, and a unification that sets it. */
  ghost predicate IsDeduped(head: seq<Symbol>, newHead: seq<Symbol>, extra: Conj) {
    && |newHead| == |head| && (forall i: nat :: i < |head| ==> newHead[i] == HeadAt(head, i))
    && (forall x :: x in extra <==> exists i: nat :: i < |head| && !IsFirst(head, i) && x == Unification(HeadAt(head, i), Binding(head[i], None), false))
  }

  /** One of the first `n` columns repeats `s` and is renamed to `to`. */
  ghost predicate Renamed(head: seq<Symbol>, n: nat, s: Symbol, to: Symbol) {
    exists k: nat :: k < n && k < |head| && !IsFirst(head, k) && head[k] == s && HeadAt(head, k) == to
  }

  lemma RenamedStep(head: seq<Symbol>, n: nat, s: Symbol, to: Symbol)
    requires n < |head|
    ensures Renamed(head, n + 1, s, to) <==> Renamed(head, n, s, to) || (!IsFirst(head, n) && s == head[n] && to == HeadAt(head, n))
  {
    hide HeadAt, IsFirst;
    if !IsFirst(head, n) && s == head[n] && to == HeadAt(head, n) {
      assert n < n + 1;
    }
    if k: nat :| k < n + 1 && k < |head| && !IsFirst(head, k) && head[k] == s && HeadAt(head, k) == to {
      assert k == n || Renamed(head, n, s, to);
    }
  }

  ghost predicate Listed(seen: map<Symbol, seq<Symbol>>, s: Symbol, to: Symbol) {
    s in seen && to in seen[s]
  }

  lemma NothingListed()
    ensures forall n, to :: !Listed(map[], n, to)
  {
  }

  /** What a step adds to the list. */
  lemma ListedStep(seen: map<Symbol, seq<Symbol>>, s: Symbol, symb: Symbol, n: Symbol, to: Symbol)
    ensures Listed(seen[s := if s in seen then seen[s] + [symb] else []], n, to) <==> Listed(seen, n, to) || (s in seen && n == s && to == symb)
  {
  }

  method DedupHead(head: seq<Symbol>) returns (newHead: seq<Symbol>, extra: Conj)
    ensures IsDeduped(head, newHead, extra)
  {
    hide Triple, Renamed, Listed;
    newHead := [];
    var counter := 0;
    var seen: map<Symbol, seq<Symbol>> := map[];
    NothingRenamed(head);
    NothingListed();
    for i := 0 to |head|
      invariant |newHead| == i && (forall k: nat :: k < i ==> newHead[k] == HeadAt(head, k))
      invariant counter == Repeats(head, i)
      invariant forall s :: s in seen <==> s in head[..i]
      invariant forall s, to :: Listed(seen, s, to) <==> Renamed(head, i, s, to)
    {
      var s := head[i];
      ghost var was := seen;
      assert head[..i + 1] == head[..i] + [s];
      assert IsFirst(head, i) <==> s !in seen;
      if s !in seen {
        seen := seen[s := []];
        newHead := newHead + [s];
      } else {
        var symb := Triple(counter);
        assert symb == HeadAt(head, i);
        counter := counter + 1;
        seen := seen[s := seen[s] + [symb]];
        newHead := newHead + [symb];
      }
      forall n, to
        ensures Listed(seen, n, to) <==> Renamed(head, i + 1, n, to)
      {
        RenamedStep(head, i, n, to);
        ListedStep(was, s, HeadAt(head, i), n, to);
      }
    }
    extra := ExtraUnifications(seen);
    DedupDone(head, seen, extra);
  }

  lemma NothingRenamed(head: seq<Symbol>)
    ensures forall s, to :: !Renamed(head, 0, s, to)
  {
  }

  ghost predicate SetsSome(seen: map<Symbol, seq<Symbol>>, keys: set<Symbol>, x: Atom<Symbol>) {
    exists s, to :: s in keys && Listed(seen, s, to) && x == Unification(to, Binding(s, None), false)
  }

  method ExtraUnifications(seen: map<Symbol, seq<Symbol>>) returns (extra: Conj)
    ensures forall x :: x in extra <==> SetsSome(seen, seen.Keys, x)
  {
    extra := [];
    var todo := seen.Keys;
    while todo != {}
      invariant todo <= seen.Keys
      invariant forall x :: x in extra <==> SetsSome(seen, seen.Keys - todo, x)
    {
      var s :| s in todo;
      ghost var before, was := seen.Keys - todo, extra;
      todo := todo - {s};
      assert seen.Keys - todo == before + {s};
      for k := 0 to |seen[s]|
        invariant forall x :: x in extra <==> x in was || exists k' :: 0 <= k' < k && x == Unification(seen[s][k'], Binding(s, None), false)
      {
        extra := extra + [Unification(seen[s][k], Binding(s, None), false)];
      }
      SetsMore(seen, before, s);
    }
  }

  lemma SetsMore(seen: map<Symbol, seq<Symbol>>, keys: set<Symbol>, s: Symbol)
    requires s in seen
    ensures forall x :: SetsSome(seen, keys + {s}, x) <==>
      SetsSome(seen, keys, x) || exists k :: 0 <= k < |seen[s]| && x == Unification(seen[s][k], Binding(s, None), false)
  {
    forall x
      ensures SetsSome(seen, keys + {s}, x) <==>
        SetsSome(seen, keys, x) || exists k :: 0 <= k < |seen[s]| && x == Unification(seen[s][k], Binding(s, None), false)
    {
      if k :| 0 <= k < |seen[s]| && x == Unification(seen[s][k], Binding(s, None), false) {
        assert Listed(seen, s, seen[s][k]);
      }
    }
  }

  lemma DedupDone(head: seq<Symbol>, seen: map<Symbol, seq<Symbol>>, extra: Conj)
    requires forall s, to :: Listed(seen, s, to) <==> Renamed(head, |head|, s, to)
    requires forall x :: x in extra <==> SetsSome(seen, seen.Keys, x)
    ensures forall x :: x in extra <==> exists i: nat :: i < |head| && !IsFirst(head, i) && x == Unification(HeadAt(head, i), Binding(head[i], None), false)
  {
    hide HeadAt, IsFirst;
    forall x
      ensures x in extra <==> exists i: nat :: i < |head| && !IsFirst(head, i) && x == Unification(HeadAt(head, i), Binding(head[i], None), false)
    {
      if i: nat :| i < |head| && !IsFirst(head, i) && x == Unification(HeadAt(head, i), Binding(head[i], None), false) {
        assert Renamed(head, |head|, head[i], HeadAt(head, i));
        assert Listed(seen, head[i], HeadAt(head, i));
      }
    }
  }

  /** Under the unifications, the new head gives the rows of the old one. */
  lemma DedupMeans(w: World, pos: DB<Symbol>, neg: DB<Symbol>, head: seq<Symbol>, newHead: seq<Symbol>, extra: Conj, env: Env)
    requires IsDeduped(head, newHead, extra) && AllHold(w, pos, neg, extra, env) && Bound(newHead, env)
    ensures Bound(head, env) && Row(newHead, env) == Row(head, env)
  {
    forall i: nat | i < |head|
      ensures head[i] in env && env[newHead[i]] == env[head[i]]
    {
      if IsFirst(head, i) {
        assert newHead[i] == head[i] && newHead[i] in env;
      } else {
        var x := Unification(HeadAt(head, i), Binding(head[i], None), false);
        assert x in extra;
        assert Holds(w, pos, neg, x, env);
      }
    }
  }

  lemma {:induction false} RepeatsGrow(head: seq<Symbol>, i: nat, j: nat)
    requires i <= j <= |head|
    ensures Repeats(head, i) <= Repeats(head, j)
    ensures i < j && !IsFirst(head, i) ==> Repeats(head, i) < Repeats(head, j)
    decreases j
  {
    if i < j {
      RepeatsGrow(head, i, j - 1);
    }
  }

  /** No two columns of the new head share a variable. */
  lemma HeadDistinct(head: seq<Symbol>, i: nat, j: nat)
    requires i < j < |head| && forall k :: 0 <= k < |head| ==> IsUser(head[k])
    ensures HeadAt(head, i) != HeadAt(head, j)
  {
    var a, b := Repeats(head, i), Repeats(head, j);
    assert Triple(a)[0] == '*' && Triple(b)[0] == '*';
    if !IsFirst(head, i) && !IsFirst(head, j) {
      RepeatsGrow(head, i, j);
      DigitsBack(a);
      DigitsBack(b);
      assert Triple(a)[3..] == Digits(a) && Triple(b)[3..] == Digits(b);
    }
  }
}
