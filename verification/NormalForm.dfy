/** Rule bodies as alternatives of conjunctions (query/logical.rs, data/program.rs). */
module NormalForm {
  import opened Wrappers
  import opened Values
  import opened Exprs
  import opened Program
  import opened Datalog
  import opened PartialEval

  /** A rule body as written; arguments of applications may be any expressions. */
  datatype InputAtom =
    | InputRule(rule: Symbol, inputs: seq<Expr>)
    | InputRelation(relation: Symbol, inputs: seq<Expr>, validAt: Option<i64>)
    | InputPredicate(pred: Expr)
    | Negation(negated: InputAtom)
    | Conjunction(parts: seq<InputAtom>)
    | Disjunction(parts: seq<InputAtom>)
    | InputUnification(target: Symbol, source: Expr, oneMany: bool)
    | InputSearch(spec: string, query: Symbol, bindings: seq<Symbol>)

  predicate IsApplication(a: InputAtom) {
    a.InputRule? || a.InputRelation?
  }

  const IGNORED: Symbol := "_"

  // ----- what a body means -----

  /** The argument stands for whatever value, and needs no evaluation. */
  predicate IsPlainArg(args: seq<Expr>, i: nat)
    requires i < |args|
  {
    args[i].Binding? && (args[i].sym == IGNORED || forall j :: 0 <= j < i ==> !(args[j].Binding? && args[j].sym == args[i].sym))
  }

  /** The tuple fits the arguments; variables without a value fit anything. */
  ghost predicate Fits(ops: Ops, args: seq<Expr>, t: Tuple, env: Env) {
    && |t| == |args|
    && forall i :: 0 <= i < |args| && !(args[i].Binding? && (args[i].sym == IGNORED || args[i].sym !in env)) ==>
         EvalIn(ops, args[i], env) == Success(t[i])
  }

  /** Every named variable has a value. */
  ghost predicate NamesBound(args: seq<Expr>, env: Env) {
    forall i :: 0 <= i < |args| && args[i].Binding? && args[i].sym != IGNORED ==> args[i].sym in env
  }

  /** What must be evaluated can be. */
  ghost predicate ArgsEvaluate(ops: Ops, args: seq<Expr>, env: Env) {
    forall i: nat :: i < |args| && !IsPlainArg(args, i) ==> EvalIn(ops, args[i], env).Success?
  }

  ghost function RowsOf(w: World, db: DB<Symbol>, a: InputAtom): iset<Tuple>
    requires IsApplication(a)
  {
    if a.InputRule? then iset t | Fact(a.rule, t) in db else w.stored(a.relation, a.validAt)
  }

  /** The body holds. Negation is pushed inwards: see `Fails`. */
  ghost predicate Sat(w: World, pos: DB<Symbol>, neg: DB<Symbol>, a: InputAtom, env: Env)
    decreases a, 1
  {
    match a
    case InputRule(_, args) => NamesBound(args, env) && exists t :: t in RowsOf(w, pos, a) && Fits(w.ops, args, t, env)
    case InputRelation(_, args, _) => NamesBound(args, env) && exists t :: t in RowsOf(w, pos, a) && Fits(w.ops, args, t, env)
    case InputPredicate(e) => EvalIn(w.ops, e, env) == Success(Bool(true))
    case Negation(b) => Fails(w, pos, neg, b, env)
    case Conjunction(bs) => AllSat(w, pos, neg, bs, env)
    case Disjunction(bs) => SomeSat(w, pos, neg, bs, env)
    case InputUnification(b, e, m) => Holds(w, pos, neg, Atom<Symbol>.Unification(b, e, m), env)
    case InputSearch(s, q, bs) => Holds(w, pos, neg, Atom<Symbol>.Search(s, q, bs), env)
  }

  /** The negation of the body holds. An application fails when no row fits what is bound; expressions must still have values,
      and unifications and searches cannot be negated. */
  ghost predicate Fails(w: World, pos: DB<Symbol>, neg: DB<Symbol>, a: InputAtom, env: Env)
    decreases a, 1
  {
    match a
    case InputRule(_, args) => ArgsEvaluate(w.ops, args, env) && !exists t :: t in RowsOf(w, neg, a) && Fits(w.ops, args, t, env)
    case InputRelation(_, args, _) => ArgsEvaluate(w.ops, args, env) && !exists t :: t in RowsOf(w, neg, a) && Fits(w.ops, args, t, env)
    case InputPredicate(e) => EvalIn(w.ops, e, env) == Success(Bool(false))
    case Negation(b) => Sat(w, pos, neg, b, env)
    case Conjunction(bs) => SomeFails(w, pos, neg, bs, env)
    case Disjunction(bs) => AllFail(w, pos, neg, bs, env)
    case InputUnification(_, _, _) => false
    case InputSearch(_, _, _) => false
  }

  ghost predicate AllSat(w: World, pos: DB<Symbol>, neg: DB<Symbol>, bs: seq<InputAtom>, env: Env)
    decreases bs, 0
  {
    bs == [] || (Sat(w, pos, neg, bs[0], env) && AllSat(w, pos, neg, bs[1..], env))
  }

  ghost predicate SomeSat(w: World, pos: DB<Symbol>, neg: DB<Symbol>, bs: seq<InputAtom>, env: Env)
    decreases bs, 0
  {
    bs != [] && (Sat(w, pos, neg, bs[0], env) || SomeSat(w, pos, neg, bs[1..], env))
  }

  ghost predicate AllFail(w: World, pos: DB<Symbol>, neg: DB<Symbol>, bs: seq<InputAtom>, env: Env)
    decreases bs, 0
  {
    bs == [] || (Fails(w, pos, neg, bs[0], env) && AllFail(w, pos, neg, bs[1..], env))
  }

  ghost predicate SomeFails(w: World, pos: DB<Symbol>, neg: DB<Symbol>, bs: seq<InputAtom>, env: Env)
    decreases bs, 0
  {
    bs != [] && (Fails(w, pos, neg, bs[0], env) || SomeFails(w, pos, neg, bs[1..], env))
  }

  // ----- negation is the complement wherever everything has a value -----

  /** All variables have values, all expressions evaluate, predicates to truth values, and nothing that cannot be negated occurs. */
  ghost predicate Determined(w: World, a: InputAtom, env: Env)
    decreases a, 1
  {
    match a
    case InputRule(_, args) => NamesBound(args, env) && ArgsEvaluate(w.ops, args, env)
    case InputRelation(_, args, _) => NamesBound(args, env) && ArgsEvaluate(w.ops, args, env)
    case InputPredicate(e) => var v := EvalIn(w.ops, e, env); v.Success? && v.value.Bool?
    case Negation(b) => Determined(w, b, env)
    case Conjunction(bs) => AllDetermined(w, bs, env)
    case Disjunction(bs) => AllDetermined(w, bs, env)
    case _ => false
  }

  ghost predicate AllDetermined(w: World, bs: seq<InputAtom>, env: Env)
    decreases bs, 0
  {
    bs == [] || (Determined(w, bs[0], env) && AllDetermined(w, bs[1..], env))
  }

  lemma {:induction false} FailsIsNotSat(w: World, db: DB<Symbol>, a: InputAtom, env: Env)
    requires Determined(w, a, env)
    ensures Fails(w, db, db, a, env) <==> !Sat(w, db, db, a, env)
    decreases a, 1
  {
    match a
    case InputRule(_, _) =>
    case InputRelation(_, _, _) =>
    case InputPredicate(_) =>
    case Negation(b) => FailsIsNotSat(w, db, b, env);
    case Conjunction(bs) => AllFailsIsNotSat(w, db, bs, env);
    case Disjunction(bs) => AllFailsIsNotSat(w, db, bs, env);
  }

  lemma {:induction false} AllFailsIsNotSat(w: World, db: DB<Symbol>, bs: seq<InputAtom>, env: Env)
    requires AllDetermined(w, bs, env)
    ensures SomeFails(w, db, db, bs, env) <==> !AllSat(w, db, db, bs, env)
    ensures AllFail(w, db, db, bs, env) <==> !SomeSat(w, db, db, bs, env)
    decreases bs, 0
  {
    if bs != [] {
      FailsIsNotSat(w, db, bs[0], env);
      AllFailsIsNotSat(w, db, bs[1..], env);
    }
  }

  // ----- pushing negation inwards -----

  function Nnf(a: InputAtom): Result<InputAtom>
    decreases a, 1
  {
    match a
    case Conjunction(bs) =>
      var ns := NnfAll(bs);
      if ns.Failure? then Failure else Success(Conjunction(ns.value))
    case Disjunction(bs) =>
      var ns := NnfAll(bs);
      if ns.Failure? then Failure else Success(Disjunction(ns.value))
    case Negation(b) => NnfNot(b)
    case _ => Success(a)
  }

  /** The normal form of a negation. */
  function NnfNot(a: InputAtom): Result<InputAtom>
    decreases a, 1
  {
    match a
    case InputRule(_, _) => Success(Negation(a))
    case InputRelation(_, _, _) => Success(Negation(a))
    case InputPredicate(e) => Success(InputPredicate(Apply(NEGATE, [e])))
    case Negation(b) => Nnf(b)
    case Conjunction(bs) =>
      var ns := NnfNotAll(bs);
      if ns.Failure? then Failure else Success(Disjunction(ns.value))
    case Disjunction(bs) =>
      var ns := NnfNotAll(bs);
      if ns.Failure? then Failure else Success(Conjunction(ns.value))
    case InputUnification(_, _, _) => Failure
    case InputSearch(_, _, _) => Failure
  }

  function NnfAll(bs: seq<InputAtom>): Result<seq<InputAtom>>
    decreases bs, 0
  {
    if bs == [] then Success([])
    else
      var n, ns := Nnf(bs[0]), NnfAll(bs[1..]);
      if n.Failure? || ns.Failure? then Failure else Success([n.value] + ns.value)
  }

  function NnfNotAll(bs: seq<InputAtom>): Result<seq<InputAtom>>
    decreases bs, 0
  {
    if bs == [] then Success([])
    else
      var n, ns := NnfNot(bs[0]), NnfNotAll(bs[1..]);
      if n.Failure? || ns.Failure? then Failure else Success([n.value] + ns.value)
  }

  /** Negation only on applications. */
  ghost predicate IsNnf(a: InputAtom)
    decreases a, 1
  {
    match a
    case Negation(b) => IsApplication(b)
    case Conjunction(bs) => AllNnf(bs)
    case Disjunction(bs) => AllNnf(bs)
    case _ => true
  }

  ghost predicate AllNnf(bs: seq<InputAtom>)
    decreases bs, 0
  {
    bs == [] || (IsNnf(bs[0]) && AllNnf(bs[1..]))
  }

  lemma NegatedPredicate(ops: Ops, e: Expr, env: Env)
    requires NegateIs(ops)
    ensures EvalIn(ops, Apply(NEGATE, [e]), env) == Success(Bool(true)) <==> EvalIn(ops, e, env) == Success(Bool(false))
  {
    assert [e][1..] == [];
    var v := EvalIn(ops, e, env);
    if v.Success? {
      assert EvalAllIn(ops, [e], env) == Success([v.value] + []);
      assert [v.value] + [] == [v.value];
    }
  }

  /** Pushing negation inwards changes nothing. */
  lemma {:induction false} NnfMeans(w: World, pos: DB<Symbol>, neg: DB<Symbol>, a: InputAtom, env: Env)
    requires NegateIs(w.ops)
    ensures Nnf(a).Success? ==> IsNnf(Nnf(a).value) && (Sat(w, pos, neg, Nnf(a).value, env) <==> Sat(w, pos, neg, a, env))
    ensures NnfNot(a).Success? ==> IsNnf(NnfNot(a).value) && (Sat(w, pos, neg, NnfNot(a).value, env) <==> Fails(w, pos, neg, a, env))
    decreases a, 1
  {
    hide NegateIs, EvalIn, Holds;
    match a
    case Negation(b) => NnfMeans(w, pos, neg, b, env);
    case Conjunction(bs) => NnfAllMean(w, pos, neg, bs, env);
    case Disjunction(bs) => NnfAllMean(w, pos, neg, bs, env);
    case InputPredicate(e) => NegatedPredicate(w.ops, e, env);
    case _ =>
  }

  lemma {:induction false} NnfAllMean(w: World, pos: DB<Symbol>, neg: DB<Symbol>, bs: seq<InputAtom>, env: Env)
    requires NegateIs(w.ops)
    ensures var ns := NnfAll(bs);
            ns.Success? ==>
              && AllNnf(ns.value)
              && (AllSat(w, pos, neg, ns.value, env) <==> AllSat(w, pos, neg, bs, env))
              && (SomeSat(w, pos, neg, ns.value, env) <==> SomeSat(w, pos, neg, bs, env))
    ensures var ns := NnfNotAll(bs);
            ns.Success? ==>
              && AllNnf(ns.value)
              && (AllSat(w, pos, neg, ns.value, env) <==> AllFail(w, pos, neg, bs, env))
              && (SomeSat(w, pos, neg, ns.value, env) <==> SomeFails(w, pos, neg, bs, env))
    decreases bs, 0
  {
    hide NegateIs, Sat, Fails, Nnf, NnfNot, IsNnf;
    if bs != [] {
      NnfMeans(w, pos, neg, bs[0], env);
      NnfAllMean(w, pos, neg, bs[1..], env);
      var ns, ms := NnfAll(bs), NnfNotAll(bs);
      if ns.Success? {
        assert ns.value[0] == Nnf(bs[0]).value && ns.value[1..] == NnfAll(bs[1..]).value;
      }
      if ms.Success? {
        assert ms.value[0] == NnfNot(bs[0]).value && ms.value[1..] == NnfNotAll(bs[1..]).value;
      }
    }
  }

  // ----- generated symbols -----

  function Digits(n: nat): (s: string)
    ensures s != ""
  {
    var last := ('0' as int + n % 10) as char;
    if n < 10 then [last] else Digits(n / 10) + [last]
  }

  function FromDigits(s: string): int {
    if s == "" then 0 else FromDigits(s[..|s| - 1]) * 10 + (s[|s| - 1] as int - '0' as int)
  }

  lemma {:induction false} DigitsBack(n: nat)
    ensures FromDigits(Digits(n)) == n
    decreases n
  {
    var s := Digits(n);
    if n < 10 {
      assert s[..|s| - 1] == "";
    } else {
      DigitsBack(n / 10);
      assert s[..|s| - 1] == Digits(n / 10);
    }
  }

  /** A symbol that stands for the value of an expression. */
  function Star(n: nat): Symbol {
    "*" + Digits(n)
  }

  /** A symbol that stands for a value nobody asks for. */
  function Tilde(n: nat): Symbol {
    "~" + Digits(n)
  }

  lemma SymbolsDiffer(m: nat, n: nat)
    ensures Star(m) == Star(n) <==> m == n
    ensures Tilde(m) == Tilde(n) <==> m == n
    ensures Star(m) != Tilde(n)
  {
    DigitsBack(m);
    DigitsBack(n);
    assert Star(m)[1..] == Digits(m) && Star(n)[1..] == Digits(n);
    assert Tilde(m)[1..] == Digits(m) && Tilde(n)[1..] == Digits(n);
    assert Star(m)[0] == '*' && Tilde(n)[0] == '~';
  }

  /** Symbols that a program may use. */
  predicate IsUser(s: Symbol) {
    s == "" || (s[0] != '*' && s[0] != '~')
  }

  ghost predicate GeneratedIn(s: Symbol, lo: nat, hi: nat) {
    exists n: nat :: lo < n <= hi && (s == Star(n) || s == Tilde(n))
  }

  lemma GeneratedOnce(s: Symbol, a: nat, b: nat, c: nat)
    ensures !(GeneratedIn(s, a, b) && GeneratedIn(s, b, c))
    ensures GeneratedIn(s, a, b) ==> !IsUser(s)
  {
    if GeneratedIn(s, a, b) {
      var m: nat :| a < m <= b && (s == Star(m) || s == Tilde(m));
      assert s[0] == '*' || s[0] == '~';
      if GeneratedIn(s, b, c) {
        var n: nat :| b < n <= c && (s == Star(n) || s == Tilde(n));
        SymbolsDiffer(m, n);
        SymbolsDiffer(n, m);
      }
    }
  }

  class TempSymbGen {
    var lastId: nat

    constructor ()
      ensures lastId == 0
    {
      lastId := 0;
    }

    method Next() returns (s: Symbol)
      modifies this
      ensures lastId == old(lastId) + 1 && s == Star(lastId)
    {
      lastId := lastId + 1;
      s := Star(lastId);
    }

    method NextIgnored() returns (s: Symbol)
      modifies this
      ensures lastId == old(lastId) + 1 && s == Tilde(lastId)
    {
      lastId := lastId + 1;
      s := Tilde(lastId);
    }
  }

  // ----- applications -----

  /** A variable named for the first time keeps its name. */
  predicate KeepsName(args: seq<Expr>, i: nat)
    requires i < |args|
  {
    IsPlainArg(args, i) && args[i].sym != IGNORED
  }

  /** The last symbol number used before argument `i`. */
  function Counter(args: seq<Expr>, g: nat, i: nat): (r: nat)
    requires i <= |args|
    ensures r >= g
  {
    if i == 0 then g else Counter(args, g, i - 1) + if KeepsName(args, i - 1) then 0 else 1
  }

  function NameAt(args: seq<Expr>, g: nat, i: nat): Symbol
    requires i < |args|
  {
    if KeepsName(args, i) then args[i].sym
    else if IsPlainArg(args, i) then Tilde(Counter(args, g, i) + 1)
    else Star(Counter(args, g, i) + 1)
  }

  function Names(args: seq<Expr>, g: nat): (r: seq<Symbol>)
    ensures |r| == |args|
  {
    seq(|args|, i requires 0 <= i < |args| => NameAt(args, g, i))
  }

  /** The expression a generated symbol is set to. */
  function Assigned(e: Expr): Expr {
    if e.Binding? then Binding(e.sym, None) else e
  }

  function UnifyAt(args: seq<Expr>, g: nat, i: nat): Atom<Symbol>
    requires i < |args|
  {
    Unification(NameAt(args, g, i), Assigned(args[i]), false)
  }

  /** The unifications for the first `k` arguments. */
  function Unifies(args: seq<Expr>, g: nat, k: nat): seq<Atom<Symbol>>
    requires k <= |args|
  {
    if k == 0 then []
    else Unifies(args, g, k - 1) + if IsPlainArg(args, k - 1) then [] else [UnifyAt(args, g, k - 1)]
  }

  function Applied(a: InputAtom, negated: bool, names: seq<Symbol>): Atom<Symbol>
    requires IsApplication(a)
  {
    match a
    case InputRule(n, _) => if negated then NegatedRule(n, names) else Rule(n, names)
    case InputRelation(r, _, at) => if negated then NegatedRelation(r, names, at) else Relation(r, names, at)
  }

  /** An application with its arguments replaced by distinct variables. */
  function Normalized(a: InputAtom, negated: bool, g: nat): seq<Atom<Symbol>>
    requires IsApplication(a)
  {
    Unifies(a.inputs, g, |a.inputs|) + [Applied(a, negated, Names(a.inputs, g))]
  }

  ghost predicate Occurs(args: seq<Expr>, n: nat, s: Symbol)
    requires n <= |args|
  {
    exists j :: 0 <= j < n && args[j].Binding? && args[j].sym == s
  }

  lemma PlainArgIs(args: seq<Expr>, i: nat)
    requires i < |args|
    ensures IsPlainArg(args, i) <==> args[i].Binding? && (args[i].sym == IGNORED || !Occurs(args, i, args[i].sym))
  {
  }

  lemma OccursNext(args: seq<Expr>, i: nat)
    requires i < |args|
    ensures forall s :: Occurs(args, i + 1, s) <==> Occurs(args, i, s) || (args[i].Binding? && args[i].sym == s)
  {
    forall s
      ensures Occurs(args, i + 1, s) <==> Occurs(args, i, s) || (args[i].Binding? && args[i].sym == s)
    {
      if Occurs(args, i + 1, s) {
        var j :| 0 <= j < i + 1 && args[j].Binding? && args[j].sym == s;
        assert j == i || Occurs(args, i, s);
      }
      if Occurs(args, i, s) {
        var j :| 0 <= j < i && args[j].Binding? && args[j].sym == s;
        assert j < i + 1;
      }
    }
  }

  lemma NoneOccurs(args: seq<Expr>)
    ensures forall s :: !Occurs(args, 0, s)
  {
  }

  method Normalize(a: InputAtom, negated: bool, gen: TempSymbGen) returns (conj: seq<Atom<Symbol>>)
    requires IsApplication(a)
    modifies gen
    ensures conj == Normalized(a, negated, old(gen.lastId))
    ensures gen.lastId == Counter(a.inputs, old(gen.lastId), |a.inputs|)
  {
    hide Star, Tilde, Applied, Assigned, IsPlainArg, Occurs;
    var inputs := a.inputs;
    ghost var g := gen.lastId;
    var args: seq<Symbol> := [];
    var seen: set<Symbol> := {};
    NoneOccurs(inputs);
    conj := [];
    for i := 0 to |inputs|
      invariant args == Names(inputs, g)[..i] && conj == Unifies(inputs, g, i) && gen.lastId == Counter(inputs, g, i)
      invariant forall s :: s in seen <==> s != IGNORED && Occurs(inputs, i, s)
    {
      var arg := inputs[i];
      PlainArgIs(inputs, i);
      OccursNext(inputs, i);
      if arg.Binding? && arg.sym == IGNORED {
        var dup := gen.NextIgnored();
        args := args + [dup];
      } else if arg.Binding? && arg.sym !in seen {
        seen := seen + {arg.sym};
        args := args + [arg.sym];
      } else {
        var kw := gen.Next();
        args := args + [kw];
        conj := conj + [Unification(kw, Assigned(arg), false)];
      }
    }
    assert Names(inputs, g)[..|inputs|] == Names(inputs, g);
    conj := conj + [Applied(a, negated, args)];
  }

  // ----- alternatives -----

  type Alternatives = seq<seq<Atom<Symbol>>>

  datatype Out = Out(alts: Alternatives, next: nat)

  /** One alternative of each side. */
  function Cross(left: Alternatives, right: Alternatives): Alternatives {
    if left == [] then [] else Cross(left[..|left| - 1], right) + Each(left[|left| - 1], right)
  }

  function Each(l: seq<Atom<Symbol>>, right: Alternatives): (r: Alternatives)
    ensures |r| == |right|
  {
    seq(|right|, i requires 0 <= i < |right| => l + right[i])
  }

  function Dnf(ops: Ops, a: InputAtom, g: nat): Result<Out>
    decreases a, 1
  {
    match a
    case InputRule(_, args) => Success(Out([Normalized(a, false, g)], Counter(args, g, |args|)))
    case InputRelation(_, args, _) => Success(Out([Normalized(a, false, g)], Counter(args, g, |args|)))
    case InputPredicate(e) =>
      var f := Folded(ops, e);
      if f.Failure? then Failure else Success(Out([[Predicate(f.value)]], g))
    case Negation(b) => if IsApplication(b) then Success(Out([Normalized(b, true, g)], Counter(b.inputs, g, |b.inputs|))) else Failure
    case Conjunction(bs) => if bs == [] then Failure else DnfAnd(ops, bs, g)
    case Disjunction(bs) => DnfOr(ops, bs, g)
    case InputUnification(b, e, m) => Success(Out([[Unification(b, e, m)]], g))
    case InputSearch(s, q, bs) => Success(Out([[Search(s, q, bs)]], g))
  }

  function DnfAnd(ops: Ops, bs: seq<InputAtom>, g: nat): Result<Out>
    requires bs != []
    decreases bs, 0
  {
    if |bs| == 1 then Dnf(ops, bs[0], g)
    else
      var l := DnfAnd(ops, bs[..|bs| - 1], g);
      if l.Failure? then Failure
      else
        var r := Dnf(ops, bs[|bs| - 1], l.value.next);
        if r.Failure? then Failure else Success(Out(Cross(l.value.alts, r.value.alts), r.value.next))
  }

  function DnfOr(ops: Ops, bs: seq<InputAtom>, g: nat): Result<Out>
    decreases bs, 0
  {
    if bs == [] then Success(Out([], g))
    else
      var l := DnfOr(ops, bs[..|bs| - 1], g);
      if l.Failure? then Failure
      else
        var r := Dnf(ops, bs[|bs| - 1], l.value.next);
        if r.Failure? then Failure else Success(Out(l.value.alts + r.value.alts, r.value.next))
  }

  /** Conjoins two disjunctions by distributing one over the other. */
  method ConjunctiveToDisjunctive(left: Alternatives, right: Alternatives) returns (ret: Alternatives)
    ensures ret == Cross(left, right)
  {
    ret := [];
    for i := 0 to |left|
      invariant ret == Cross(left[..i], right)
    {
      ghost var before := ret;
      for j := 0 to |right|
        invariant ret == before + Each(left[i], right)[..j]
      {
        ret := ret + [left[i] + right[j]];
      }
      assert Each(left[i], right)[..|right|] == Each(left[i], right);
      assert left[..i + 1][..i] == left[..i];
    }
    assert left[..|left|] == left;
  }

  method DoDnf(ops: Ops, a: InputAtom, gen: TempSymbGen) returns (r: Result<Alternatives>)
    modifies gen
    ensures r.Success? <==> Dnf(ops, a, old(gen.lastId)).Success?
    ensures r.Success? ==> Dnf(ops, a, old(gen.lastId)).value == Out(r.value, gen.lastId)
    decreases a, 1
  {
    hide Normalized, Counter, Folded, Cross;
    match a
    case InputRule(_, _) =>
      var c := Normalize(a, false, gen);
      r := Success([c]);
    case InputRelation(_, _, _) =>
      var c := Normalize(a, false, gen);
      r := Success([c]);
    case InputPredicate(e) =>
      var f := Fold(ops, e);
      r := if f.Failure? then Failure else Success([[Predicate(f.value)]]);
    case Negation(b) =>
      if IsApplication(b) {
        var c := Normalize(b, true, gen);
        r := Success([c]);
      } else {
        r := Failure;
      }
    case Conjunction(bs) =>
      if bs == [] {
        return Failure;
      }
      r := DoDnfAnd(ops, bs, gen);
    case Disjunction(bs) =>
      r := DoDnfOr(ops, bs, gen);
    case InputUnification(b, e, m) =>
      r := Success([[Unification(b, e, m)]]);
    case InputSearch(s, q, bs) =>
      r := Success([[Search(s, q, bs)]]);
  }

  method DoDnfAnd(ops: Ops, bs: seq<InputAtom>, gen: TempSymbGen) returns (r: Result<Alternatives>)
    requires bs != []
    modifies gen
    ensures r.Success? <==> DnfAnd(ops, bs, old(gen.lastId)).Success?
    ensures r.Success? ==> DnfAnd(ops, bs, old(gen.lastId)).value == Out(r.value, gen.lastId)
    decreases bs, 0
  {
    hide Dnf, Cross;
    ghost var g := gen.lastId;
    r := DoDnf(ops, bs[0], gen);
    if r.Failure? {
      AndFails(ops, bs, g, 1);
      return;
    }
    var result := r.value;
    assert bs[..1] == [bs[0]];
    for i := 1 to |bs|
      invariant DnfAnd(ops, bs[..i], g) == Success(Out(result, gen.lastId))
    {
      assert bs[..i + 1][..i] == bs[..i];
      var d := DoDnf(ops, bs[i], gen);
      if d.Failure? {
        AndFails(ops, bs, g, i + 1);
        return Failure;
      }
      result := ConjunctiveToDisjunctive(result, d.value);
    }
    assert bs[..|bs|] == bs;
    r := Success(result);
  }

  lemma {:induction false} AndFails(ops: Ops, bs: seq<InputAtom>, g: nat, i: nat)
    requires 0 < i <= |bs| && DnfAnd(ops, bs[..i], g).Failure?
    ensures DnfAnd(ops, bs, g).Failure?
    decreases |bs| - i
  {
    hide Dnf, Cross;
    if i == |bs| {
      assert bs[..i] == bs;
    } else {
      assert bs[..i + 1][..i] == bs[..i];
      AndFails(ops, bs, g, i + 1);
    }
  }

  method DoDnfOr(ops: Ops, bs: seq<InputAtom>, gen: TempSymbGen) returns (r: Result<Alternatives>)
    modifies gen
    ensures r.Success? <==> DnfOr(ops, bs, old(gen.lastId)).Success?
    ensures r.Success? ==> DnfOr(ops, bs, old(gen.lastId)).value == Out(r.value, gen.lastId)
    decreases bs, 0
  {
    hide Dnf;
    ghost var g := gen.lastId;
    var ret: Alternatives := [];
    for i := 0 to |bs|
      invariant DnfOr(ops, bs[..i], g) == Success(Out(ret, gen.lastId))
    {
      assert bs[..i + 1][..i] == bs[..i];
      var d := DoDnf(ops, bs[i], gen);
      if d.Failure? {
        OrFails(ops, bs, g, i + 1);
        return Failure;
      }
      ghost var before := ret;
      for j := 0 to |d.value|
        invariant ret == before + d.value[..j]
      {
        ret := ret + [d.value[j]];
      }
      assert d.value[..|d.value|] == d.value;
    }
    assert bs[..|bs|] == bs;
    r := Success(ret);
  }

  lemma {:induction false} OrFails(ops: Ops, bs: seq<InputAtom>, g: nat, i: nat)
    requires i <= |bs| && DnfOr(ops, bs[..i], g).Failure?
    ensures DnfOr(ops, bs, g).Failure?
    decreases |bs| - i
  {
    hide Dnf;
    if i == |bs| {
      assert bs[..i] == bs;
    } else {
      assert bs[..i + 1][..i] == bs[..i];
      OrFails(ops, bs, g, i + 1);
    }
  }
}
