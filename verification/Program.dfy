/** Rules, atoms and programs (data/program.rs). */
module Program {
  import opened Wrappers
  import opened Values
  import opened Exprs

  const PROG_ENTRY: Symbol := "?"

  /** Names of relations after the magic-sets rewrite. */
  datatype MagicSymbol =
    | Muggle(inner: Symbol)
    | Magic(inner: Symbol, adornment: seq<bool>)
    | Input(inner: Symbol, adornment: seq<bool>)
    | Sup(inner: Symbol, adornment: seq<bool>, ruleIdx: nat, supIdx: nat)
  {
    /** The adornment, empty for a plain name. */
    function MagicAdornment(): seq<bool> {
      if Muggle? then [] else adornment
    }

    predicate HasBoundAdornment() {
      true in MagicAdornment()
    }
  }

  /** An atom of a rule body; `S` names the rules: `Symbol` before the magic rewrite, `MagicSymbol` after.
      The three index searches differ only in what they look up, which `spec` stands for. */
  datatype Atom<S> =
    | Rule(name: S, args: seq<Symbol>)
    | NegatedRule(name: S, args: seq<Symbol>)
    | Relation(rel: Symbol, args: seq<Symbol>, validAt: Option<i64>)
    | NegatedRelation(rel: Symbol, args: seq<Symbol>, validAt: Option<i64>)
    | Predicate(expr: Expr)
    | Unification(binding: Symbol, expr: Expr, oneMany: bool)
    | Search(spec: string, query: Symbol, bindings: seq<Symbol>)

  datatype Aggregation = Aggregation(aggr: string, isMeet: bool)

  datatype InlineRule<S> = InlineRule(head: seq<Symbol>, aggr: seq<Option<Aggregation>>, body: seq<Atom<S>>)

  datatype FixedRuleArg<S> = InMem(arg: S) | Stored(stored: Symbol, storedAt: Option<i64>)

  datatype RulesOrFixed<S> = Rules(rules: seq<InlineRule<S>>) | Fixed(handle: string, ruleArgs: seq<FixedRuleArg<S>>)

  /** The variables an atom gives a value to. */
  function Binds<S>(a: Atom<S>): set<Symbol> {
    match a
    case Rule(_, args) => set s | s in args
    case Relation(_, args, _) => set s | s in args
    case Unification(b, _, _) => {b}
    case Search(_, _, bs) => set s | s in bs
    case NegatedRule(_, _) => {}
    case NegatedRelation(_, _, _) => {}
    case Predicate(_) => {}
  }

  /** The variables that must have a value before the atom can be evaluated. */
  function Uses<S>(a: Atom<S>): set<Symbol> {
    match a
    case Predicate(e) => Vars(e)
    case Unification(_, e, _) => Vars(e)
    case Search(_, q, _) => {q}
    case Rule(_, _) => {}
    case NegatedRule(_, _) => {}
    case Relation(_, _, _) => {}
    case NegatedRelation(_, _, _) => {}
  }

  /** The arguments of a negated atom; those without a value match anything. */
  function Negates<S>(a: Atom<S>): set<Symbol> {
    if a.NegatedRule? || a.NegatedRelation? then set s | s in a.args else {}
  }

  function BodyBinds<S>(body: seq<Atom<S>>): set<Symbol> {
    set i, s | 0 <= i < |body| && s in Binds(body[i]) :: s
  }

  /** Every atom only uses variables bound before it, and binds no argument of an earlier negated atom. */
  ghost predicate WellOrdered<S>(body: seq<Atom<S>>) {
    forall i :: 0 <= i < |body| ==>
      && Uses(body[i]) <= BodyBinds(body[..i])
      && Negates(body[i]) * BodyBinds(body) <= BodyBinds(body[..i])
  }

  /** No aggregation in the head. */
  predicate IsPlain<S>(r: InlineRule<S>) {
    forall i :: 0 <= i < |r.aggr| ==> r.aggr[i].None?
  }

  lemma BodyBindsStep<S>(body: seq<Atom<S>>, k: nat)
    requires k < |body|
    ensures BodyBinds(body[..k + 1]) == BodyBinds(body[..k]) + Binds(body[k])
  {
    assert forall i :: 0 <= i < k ==> body[..k + 1][i] == body[..k][i];
    assert body[..k + 1][k] == body[k];
  }

  lemma BodyBindsPrefix<S>(body: seq<Atom<S>>, k: nat)
    requires k <= |body|
    ensures BodyBinds(body[..k]) <= BodyBinds(body)
  {
    assert forall i :: 0 <= i < k ==> body[..k][i] == body[i];
  }

  lemma BodyBindsAppend<S>(body: seq<Atom<S>>, a: Atom<S>)
    ensures BodyBinds(body + [a]) == BodyBinds(body) + Binds(a)
  {
    BodyBindsStep(body + [a], |body|);
    assert (body + [a])[..|body| + 1] == body + [a] && (body + [a])[..|body|] == body;
  }

  lemma BodyBindsOne<S>(a: Atom<S>)
    ensures BodyBinds([a]) == Binds(a)
  {
    assert [a][0] == a;
  }

  lemma BodyBindsNone<S>(body: seq<Atom<S>>)
    requires body == []
    ensures BodyBinds(body) == {}
  {
  }

  /** Once an atom of an ordered body is passed, its variables are bound or never will be. */
  lemma PassedVars<S>(body: seq<Atom<S>>, i: nat, k: nat)
    requires WellOrdered(body) && i < k <= |body|
    ensures (Binds(body[i]) + Uses(body[i]) + Negates(body[i])) * BodyBinds(body) <= BodyBinds(body[..k])
  {
    hide Binds, Uses, Negates;
    assert body[..k][i] == body[i];
    assert Binds(body[i]) <= BodyBinds(body[..k]);
    assert body[..i] == body[..k][..i];
    BodyBindsPrefix(body[..k], i);
    assert Uses(body[i]) <= BodyBinds(body[..i]);
  }
}
