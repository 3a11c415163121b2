/** Indices in the evaluation of a compiled body: whichever way a stored relation is read, the step finds the same. */
module IndexedEval {
  import opened Wrappers
  import opened Values
  import opened Exprs
  import opened Program
  import opened Datalog
  import opened BodyEval
  import opened Compile
  import opened IndexJoin

  /** Where evaluation has come to atom `i` of a compiled body with an assignment, and the atom reads a stored relation. */
  ghost predicate Reaches<S(!new)>(cat: Catalog, arities: map<S, nat>, r: InlineRule<S>, src: Source, pos: Tables<S>, neg: Tables<S>, i: nat, env: Env)
    requires i < |r.body|
  {
    Compiles(cat, arities, r) && WellOrdered(r.body) && env in Assignments(src, pos, neg, r.body, i)
  }

  /** The columns that compiling joins on are exactly those that have a value. */
  lemma JoinsValues<S(!new)>(cat: Catalog, arities: map<S, nat>, r: InlineRule<S>, src: Source, pos: Tables<S>, neg: Tables<S>, i: nat, env: Env, s: Symbol)
    requires i < |r.body| && Reaches(cat, arities, r, src, pos, neg, i, env) && s in Columns(r.body[i])
    ensures s in Recorded(r.body, i) <==> s in env
  {
    hide BodyBinds, WellOrdered, Assignments, AtomFits, Uses, HeadIsBound;
    AssignmentsIs(src, pos, neg, r.body, i, env);
    BindsRecorded(r.body, i);
    assert AtomCompiles(cat, arities, r.body, i);
    var cs := Columns(r.body[i]);
    var j :| 0 <= j < |cs| && cs[j] == s;
    assert s in Recorded(r.body, i) ==> s in Joined(r.body[i], Recorded(r.body, i));
  }

  /** A stored relation, its index, and the columns the index holds. */
  ghost predicate Indexed(src: Source, rel: Symbol, args: seq<Symbol>, mapper: seq<nat>, index: set<Tuple>) {
    && Distinct(args) && (forall p :: 0 <= p < |mapper| ==> mapper[p] < |args|)
    && (forall t :: t in src.stored(rel, None) ==> |t| == |args|) && IsIndexOf(src.stored(rel, None), mapper, index, |args|)
  }

  /** Going through the index and back to the relation, by the plan made from the variables recorded, is the step of evaluation. */
  lemma IndexedStep<S(!new)>(cat: Catalog, arities: map<S, nat>, r: InlineRule<S>, src: Source, pos: Tables<S>, neg: Tables<S>, i: nat, env: Env,
                             rel: Symbol, args: seq<Symbol>, mapper: seq<nat>, keys: nat, plan: Plan, index: set<Tuple>)
    requires i < |r.body| && Reaches(cat, arities, r, src, pos, neg, i, env) && r.body[i] == Relation(rel, args, None) && Indexed(src, rel, args, mapper, index)
    requires IsPlan(args, Recorded(r.body, i), mapper, keys, plan) && KeyedBy(src.stored(rel, None), |args|, keys) && forall k: nat :: k < keys ==> k in mapper
    ensures PlanRows(plan, args, index, src.stored(rel, None), env) == Extend(src, pos, neg, r.body[i], env)
  {
    hide Reaches, JoinWith, PlanRows, KeyedBy, IsIndexOf, Recorded, Distinct;
    forall j | 0 <= j < |args|
      ensures args[j] in Recorded(r.body, i) <==> args[j] in env
    {
      JoinsValues(cat, arities, r, src, pos, neg, i, env, args[j]);
    }
    SamePlan(args, Recorded(r.body, i), env.Keys, mapper, keys, plan);
    IndexWithJoinIsJoin(args, mapper, keys, plan, src.stored(rel, None), index, env);
  }

  lemma SamePlan(args: seq<Symbol>, a: set<Symbol>, b: set<Symbol>, mapper: seq<nat>, keys: nat, plan: Plan)
    requires (forall p :: 0 <= p < |mapper| ==> mapper[p] < |args|) && IsPlan(args, a, mapper, keys, plan)
    requires forall j :: 0 <= j < |args| ==> (args[j] in a <==> args[j] in b)
    ensures IsPlan(args, b, mapper, keys, plan)
  {
  }

  /** Reading the index alone gives the step of evaluation, up to variables that are ignored. */
  lemma IndexOnlyStep<S(!new)>(cat: Catalog, arities: map<S, nat>, r: InlineRule<S>, src: Source, pos: Tables<S>, neg: Tables<S>, i: nat, env: Env,
                               rel: Symbol, args: seq<Symbol>, uses: seq<Use>, mapper: seq<nat>, index: set<Tuple>)
    requires i < |r.body| && Reaches(cat, arities, r, src, pos, neg, i, env) && r.body[i] == Relation(rel, args, None) && Indexed(src, rel, args, mapper, index)
    requires IsUse(args, Recorded(r.body, i), uses) && Covers(uses, mapper)
    ensures forall a :: a in Extend(src, pos, neg, r.body[i], env) ==>
              exists b :: b in JoinWith(IndexArgs(args, mapper), index, env) && SameUsed(args, uses, env, a, b)
    ensures forall b :: b in JoinWith(IndexArgs(args, mapper), index, env) ==>
              exists a :: a in Extend(src, pos, neg, r.body[i], env) && SameUsed(args, uses, env, a, b)
  {
    hide Reaches, JoinWith, IsIndexOf, Recorded, Distinct, SameUsed;
    SameUses(cat, arities, r, src, pos, neg, i, env, args, uses);
    IndexAloneIsJoin(args, uses, mapper, src.stored(rel, None), index, env);
  }

  lemma SameUses<S(!new)>(cat: Catalog, arities: map<S, nat>, r: InlineRule<S>, src: Source, pos: Tables<S>, neg: Tables<S>, i: nat, env: Env,
                          args: seq<Symbol>, uses: seq<Use>)
    requires i < |r.body| && Reaches(cat, arities, r, src, pos, neg, i, env) && Columns(r.body[i]) == args && IsUse(args, Recorded(r.body, i), uses)
    ensures IsUse(args, env.Keys, uses)
  {
    hide Reaches, Recorded, Columns, IsIgnoredSymbol;
    forall j | 0 <= j < |args|
      ensures args[j] in Recorded(r.body, i) <==> args[j] in env
    {
      JoinsValues(cat, arities, r, src, pos, neg, i, env, args[j]);
    }
  }

  /** A row matches exactly if its entry in an index does that holds every column in use. */
  lemma ProjectMatches(args: seq<Symbol>, uses: seq<Use>, mapper: seq<nat>, env: Env, t: Tuple)
    requires IsUse(args, env.Keys, uses) && (forall p :: 0 <= p < |mapper| ==> mapper[p] < |args|) && |t| == |args| && Covers(uses, mapper)
    ensures Matches(args, t, env) <==> Matches(IndexArgs(args, mapper), Project(t, mapper), env)
  {
    if Matches(IndexArgs(args, mapper), Project(t, mapper), env) {
      forall i | 0 <= i < |args| && args[i] in env
        ensures t[i] == env[args[i]]
      {
        var p :| 0 <= p < |mapper| && mapper[p] == i;
        assert IndexArgs(args, mapper)[p] == args[i];
      }
    }
  }

  /** A negated relation holds exactly if nothing in such an index matches. */
  lemma NegatedIndexStep<S(!new)>(cat: Catalog, arities: map<S, nat>, r: InlineRule<S>, src: Source, pos: Tables<S>, neg: Tables<S>, i: nat, env: Env,
                                  rel: Symbol, args: seq<Symbol>, uses: seq<Use>, mapper: seq<nat>, index: set<Tuple>)
    requires i < |r.body| && Reaches(cat, arities, r, src, pos, neg, i, env) && r.body[i] == NegatedRelation(rel, args, None) && Indexed(src, rel, args, mapper, index)
    requires IsUse(args, Recorded(r.body, i), uses) && Covers(uses, mapper)
    ensures Extend(src, pos, neg, r.body[i], env) == if exists x :: x in index && Matches(IndexArgs(args, mapper), x, env) then {} else {env}
  {
    hide Reaches, Recorded, Distinct, Matches;
    SameUses(cat, arities, r, src, pos, neg, i, env, args, uses);
    var rows := src.stored(rel, None);
    forall t | t in rows
      ensures Project(t, mapper) in index && (Matches(args, t, env) <==> Matches(IndexArgs(args, mapper), Project(t, mapper), env))
    {
      ProjectMatches(args, uses, mapper, env, t);
    }
    if x :| x in index && Matches(IndexArgs(args, mapper), x, env) {
      var t :| t in rows && x == Project(t, mapper);
    }
  }
}
