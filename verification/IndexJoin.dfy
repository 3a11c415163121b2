/** Reading a stored relation through an index (query/compile.rs, runtime/relation.rs). */
module IndexJoin {
  import opened Wrappers
  import opened Values
  import opened Exprs
  import opened Datalog
  import opened BodyEval

  /** What an argument of a stored relation is used for. */
  datatype Use = Join | BindForLater | Ignored

  predicate IsIgnoredSymbol(s: Symbol) {
    s != "" && s[0] == '~'
  }

  ghost predicate IsUse(args: seq<Symbol>, seen: set<Symbol>, uses: seq<Use>) {
    && |uses| == |args|
    && forall i :: 0 <= i < |args| ==>
         uses[i] == if args[i] in seen then Join else if IsIgnoredSymbol(args[i]) then Ignored else BindForLater
  }

  /** `joined` lists the positions of arguments that already have a value, and `rev` finds them in it. */
  ghost predicate IsJoined(args: seq<Symbol>, seen: set<Symbol>, joined: seq<nat>, rev: seq<Option<nat>>) {
    && |rev| == |args| && Distinct(joined)
    && (forall j :: 0 <= j < |joined| ==> joined[j] < |args| && args[joined[j]] in seen && rev[joined[j]] == Some(j))
    && (forall i :: 0 <= i < |args| && args[i] in seen ==> rev[i].Some?)
    && (forall i :: 0 <= i < |args| && rev[i].Some? ==> rev[i].value < |joined| && joined[rev[i].value] == i)
  }

  /** Sorts the arguments into those that join and those that bind. */
  method ArgUses(args: seq<Symbol>, seen: set<Symbol>) returns (uses: seq<Use>, joined: seq<nat>, rev: seq<Option<nat>>)
    requires Distinct(args)
    ensures IsUse(args, seen, uses) && IsJoined(args, seen, joined, rev)
  {
    uses, joined, rev := [], [], seq(|args|, _ => None);
    var seenNow := seen;
    for i := 0 to |args|
      invariant |uses| == i && |rev| == |args| && Distinct(joined)
      invariant forall k :: 0 <= k < i ==> uses[k] == if args[k] in seen then Join else if IsIgnoredSymbol(args[k]) then Ignored else BindForLater
      invariant forall s :: s in seenNow <==> s in seen || s in args[..i]
      invariant forall j :: 0 <= j < |joined| ==> joined[j] < i && args[joined[j]] in seen && rev[joined[j]] == Some(j)
      invariant forall k :: 0 <= k < i && args[k] in seen ==> rev[k].Some?
      invariant forall k :: 0 <= k < |args| && rev[k].Some? ==> k < i && rev[k].value < |joined| && joined[rev[k].value] == k
    {
      var v := args[i];
      if v in seenNow {
        joined := joined + [i];
        rev := rev[i := Some(|joined| - 1)];
        uses := uses + [Join];
      } else {
        seenNow := seenNow + {v};
        uses := uses + [if IsIgnoredSymbol(v) then Ignored else BindForLater];
      }
    }
  }

  // ----- choosing an index -----

  /** An index: for each of its columns the column of the relation it holds. */
  datatype Index = Index(name: string, mapper: seq<nat>)

  ghost predicate PrefixLength(uses: seq<Use>, mapper: seq<nat>, n: nat)
    requires forall p :: 0 <= p < |mapper| ==> mapper[p] < |uses|
  {
    && n <= |mapper|
    && (forall p :: 0 <= p < n ==> uses[mapper[p]] == Join)
    && (n < |mapper| ==> uses[mapper[n]] != Join)
  }

  ghost predicate Usable(index: Index, validityQuery: bool, keys: nat) {
    !validityQuery || (index.mapper != [] && index.mapper[|index.mapper| - 1] == keys - 1)
  }

  /** Everything that is used is in the index. */
  ghost predicate Covers(uses: seq<Use>, mapper: seq<nat>) {
    forall i :: 0 <= i < |uses| && uses[i] != Ignored ==> i in mapper
  }

  method JoinPrefix(uses: seq<Use>, mapper: seq<nat>) returns (n: nat)
    requires forall p :: 0 <= p < |mapper| ==> mapper[p] < |uses|
    ensures PrefixLength(uses, mapper, n)
  {
    n := 0;
    while n < |mapper| && uses[mapper[n]] == Join
      invariant n <= |mapper| && forall p :: 0 <= p < n ==> uses[mapper[p]] == Join
    {
      n := n + 1;
    }
  }

  method NeedsJoin(uses: seq<Use>, mapper: seq<nat>) returns (needJoin: bool)
    ensures needJoin <==> !Covers(uses, mapper)
  {
    needJoin := false;
    for i := 0 to |uses|
      invariant needJoin <==> exists k :: 0 <= k < i && uses[k] != Ignored && k !in mapper
    {
      if uses[i] != Ignored && i !in mapper {
        needJoin := true;
      }
    }
  }

  /** The first usable index with the longest prefix of joined columns, if any has one; none is needed when the first argument joins. */
  method ChooseIndex(indices: seq<Index>, uses: seq<Use>, validityQuery: bool, keys: nat) returns (r: Option<(nat, bool)>)
    requires uses != []
    requires forall x, p :: 0 <= x < |indices| && 0 <= p < |indices[x].mapper| ==> indices[x].mapper[p] < |uses|
    requires validityQuery ==> forall x :: 0 <= x < |indices| ==> indices[x].mapper != []
    ensures r.Some? ==>
      && uses[0] != Join
      && r.value.0 < |indices| && Usable(indices[r.value.0], validityQuery, keys)
      && (r.value.1 <==> !Covers(uses, indices[r.value.0].mapper))
      && exists n: nat :: n > 0 && PrefixLength(uses, indices[r.value.0].mapper, n) &&
           forall x, l: nat :: 0 <= x < |indices| && Usable(indices[x], validityQuery, keys) && PrefixLength(uses, indices[x].mapper, l) ==>
             l <= n && (x < r.value.0 ==> l < n)
    ensures r.None? && uses[0] != Join ==>
      forall x :: 0 <= x < |indices| && Usable(indices[x], validityQuery, keys) ==> PrefixLength(uses, indices[x].mapper, 0)
  {
    if uses[0] == Join {
      return None;
    }
    r := None;
    var longest := 0;
    for x := 0 to |indices|
      invariant r.None? <==> longest == 0
      invariant r.Some? ==> r.value.0 < x && Usable(indices[r.value.0], validityQuery, keys) && PrefixLength(uses, indices[r.value.0].mapper, longest)
      invariant r.Some? ==> (r.value.1 <==> !Covers(uses, indices[r.value.0].mapper))
      invariant forall y, l: nat :: 0 <= y < x && Usable(indices[y], validityQuery, keys) && PrefixLength(uses, indices[y].mapper, l) ==>
        l <= longest && (r.Some? && y < r.value.0 ==> l < longest)
      invariant r.None? ==> forall y :: 0 <= y < x && Usable(indices[y], validityQuery, keys) ==> PrefixLength(uses, indices[y].mapper, 0)
    {
      var mapper := indices[x].mapper;
      if validityQuery && mapper[|mapper| - 1] != keys - 1 {
        continue;
      }
      var n := JoinPrefix(uses, mapper);
      forall l: nat | PrefixLength(uses, mapper, l)
        ensures l == n
      {
        OnePrefix(uses, mapper, l, n);
      }
      if n > longest {
        longest := n;
        var needJoin := NeedsJoin(uses, mapper);
        r := Some((x, needJoin));
      }
    }
  }

  lemma OnePrefix(uses: seq<Use>, mapper: seq<nat>, l: nat, n: nat)
    requires forall p :: 0 <= p < |mapper| ==> mapper[p] < |uses|
    requires PrefixLength(uses, mapper, l) && PrefixLength(uses, mapper, n)
    ensures l == n
  {
  }

  // ----- the plan that joins the index and then the relation -----

  /** Columns to compare: variables with index columns, index columns with key columns, variables with other columns. */
  datatype Plan = Plan(indexJoin: seq<(Symbol, nat)>, keyJoin: seq<(nat, nat)>, filters: seq<(Symbol, nat)>)

  method IndexWithJoin(args: seq<Symbol>, joined: seq<nat>, rev: seq<Option<nat>>, mapper: seq<nat>, keys: nat, ghost seen: set<Symbol>) returns (plan: Plan)
    requires IsJoined(args, seen, joined, rev) && forall p :: 0 <= p < |mapper| ==> mapper[p] < |args|
    ensures IsPlan(args, seen, mapper, keys, plan)
  {
    var notBound := seq(|joined|, _ => true);
    var indexJoin: seq<(Symbol, nat)> := [];
    for p := 0 to |mapper|
      invariant |notBound| == |joined|
      invariant forall j :: 0 <= j < |joined| ==> (notBound[j] <==> joined[j] !in mapper[..p])
      invariant forall v, q :: (v, q) in indexJoin <==> 0 <= q < p && args[mapper[q]] in seen && v == args[mapper[q]]
    {
      assert mapper[..p + 1] == mapper[..p] + [mapper[p]];
      var at := rev[mapper[p]];
      if at.Some? {
        notBound := notBound[at.value := false];
        indexJoin := indexJoin + [(args[joined[at.value]], p)];
      }
    }
    assert mapper[..|mapper|] == mapper;
    var keyJoin: seq<(nat, nat)> := [];
    for p := 0 to |mapper|
      invariant forall q, o :: (q, o) in keyJoin <==> 0 <= q < p && mapper[q] < keys && o == mapper[q]
    {
      if mapper[p] < keys {
        keyJoin := keyJoin + [(p, mapper[p])];
      }
    }
    var filters: seq<(Symbol, nat)> := [];
    for j := 0 to |joined|
      invariant forall v, o :: (v, o) in filters <==> exists k :: 0 <= k < j && joined[k] !in mapper && o == joined[k] && v == args[joined[k]]
    {
      if notBound[j] {
        filters := filters + [(args[joined[j]], joined[j])];
      }
    }
    plan := Plan(indexJoin, keyJoin, filters);
    forall v, o
      ensures (v, o) in filters <==> 0 <= o < |args| && args[o] in seen && o !in mapper && v == args[o]
    {
      if 0 <= o < |args| && args[o] in seen && o !in mapper && v == args[o] {
        assert joined[rev[o].value] == o;
      }
    }
  }

  ghost predicate IsPlan(args: seq<Symbol>, seen: set<Symbol>, mapper: seq<nat>, keys: nat, plan: Plan)
    requires forall p :: 0 <= p < |mapper| ==> mapper[p] < |args|
  {
    && (forall v, q :: (v, q) in plan.indexJoin <==> 0 <= q < |mapper| && args[mapper[q]] in seen && v == args[mapper[q]])
    && (forall q, o :: (q, o) in plan.keyJoin <==> 0 <= q < |mapper| && mapper[q] < keys && o == mapper[q])
    && (forall v, o :: (v, o) in plan.filters <==> 0 <= o < |args| && args[o] in seen && o !in mapper && v == args[o])
  }

  function Project(t: Tuple, mapper: seq<nat>): (r: Tuple)
    requires forall p :: 0 <= p < |mapper| ==> mapper[p] < |t|
    ensures |r| == |mapper|
  {
    seq(|mapper|, p requires 0 <= p < |mapper| => t[mapper[p]])
  }

  /** Rows of one arity, determined by their first `keys` columns. */
  ghost predicate KeyedBy(rows: set<Tuple>, arity: nat, keys: nat) {
    && keys <= arity
    && (forall t :: t in rows ==> |t| == arity)
    && (forall t, u :: t in rows && u in rows && t[..keys] == u[..keys] ==> t == u)
  }

  ghost predicate IsIndexOf(rows: set<Tuple>, mapper: seq<nat>, index: set<Tuple>, arity: nat)
    requires (forall t :: t in rows ==> |t| == arity) && (forall p :: 0 <= p < |mapper| ==> mapper[p] < arity)
  {
    forall x :: x in index <==> exists t :: t in rows && x == Project(t, mapper)
  }

  /** An index row and a relation row that the plan brings together. */
  ghost predicate Meets(plan: Plan, env: Env, x: Tuple, t: Tuple) {
    && (forall v, q :: (v, q) in plan.indexJoin ==> v in env && q < |x| && x[q] == env[v])
    && (forall q, o :: (q, o) in plan.keyJoin ==> q < |x| && o < |t| && x[q] == t[o])
    && (forall v, o :: (v, o) in plan.filters ==> v in env && o < |t| && t[o] == env[v])
  }

  /** The assignments that the plan finds. */
  ghost function PlanRows(plan: Plan, args: seq<Symbol>, index: set<Tuple>, rows: set<Tuple>, env: Env): set<Env>
    requires forall t :: t in rows ==> |t| == |args|
  {
    set x, t | x in index && t in rows && Meets(plan, env, x, t) :: Assign(args, t, env)
  }

  /** A row that joins meets its own projection. */
  lemma JoinMeets(args: seq<Symbol>, mapper: seq<nat>, keys: nat, plan: Plan, env: Env, t: Tuple)
    requires Distinct(args) && (forall p :: 0 <= p < |mapper| ==> mapper[p] < |args|) && IsPlan(args, env.Keys, mapper, keys, plan)
    requires |t| == |args| && Joins(args, t, env)
    ensures Meets(plan, env, Project(t, mapper), t)
  {
  }

  /** An index row and a row it meets come from the same row, which joins. */
  lemma MeetsJoins(args: seq<Symbol>, mapper: seq<nat>, keys: nat, plan: Plan, env: Env, rows: set<Tuple>, u: Tuple, t: Tuple)
    requires Distinct(args) && (forall p :: 0 <= p < |mapper| ==> mapper[p] < |args|) && IsPlan(args, env.Keys, mapper, keys, plan)
    requires KeyedBy(rows, |args|, keys) && (forall k: nat :: k < keys ==> k in mapper) && u in rows && t in rows
    requires Meets(plan, env, Project(u, mapper), t)
    ensures u == t && Joins(args, t, env)
  {
    var x := Project(u, mapper);
    forall k: nat | k < keys
      ensures u[k] == t[k]
    {
      assert k in mapper;
      var q :| 0 <= q < |mapper| && mapper[q] == k;
      assert (q, k) in plan.keyJoin;
    }
    assert u[..keys] == t[..keys];
    forall i | 0 <= i < |args| && args[i] in env
      ensures t[i] == env[args[i]]
    {
      if i in mapper {
        var q :| 0 <= q < |mapper| && mapper[q] == i;
        assert (args[i], q) in plan.indexJoin;
      } else {
        assert (args[i], i) in plan.filters;
      }
    }
  }

  /** Going through the index finds exactly what joining the relation directly finds. */
  lemma IndexWithJoinIsJoin(args: seq<Symbol>, mapper: seq<nat>, keys: nat, plan: Plan, rows: set<Tuple>, index: set<Tuple>, env: Env)
    requires Distinct(args) && (forall p :: 0 <= p < |mapper| ==> mapper[p] < |args|) && IsPlan(args, env.Keys, mapper, keys, plan)
    requires KeyedBy(rows, |args|, keys) && (forall k: nat :: k < keys ==> k in mapper) && IsIndexOf(rows, mapper, index, |args|)
    ensures PlanRows(plan, args, index, rows, env) == JoinWith(args, rows, env)
  {
    hide IsPlan, Meets, Assign;
    forall e
      ensures e in PlanRows(plan, args, index, rows, env) <==> e in JoinWith(args, rows, env)
    {
      if e in PlanRows(plan, args, index, rows, env) {
        var x, t :| x in index && t in rows && Meets(plan, env, x, t) && e == Assign(args, t, env);
        var u :| u in rows && x == Project(u, mapper);
        MeetsJoins(args, mapper, keys, plan, env, rows, u, t);
      }
      if e in JoinWith(args, rows, env) {
        var t :| t in rows && Joins(args, t, env) && e == Assign(args, t, env);
        JoinMeets(args, mapper, keys, plan, env, t);
        assert Project(t, mapper) in index;
      }
    }
  }

  // ----- reading the index alone -----

  /** The two assignments agree on every variable but ignored ones. */
  ghost predicate SameUsed(args: seq<Symbol>, uses: seq<Use>, env: Env, a: Env, b: Env)
    requires |uses| == |args|
  {
    && AgreeOn(env.Keys, a, b)
    && forall i :: 0 <= i < |args| && uses[i] != Ignored ==> args[i] in a && args[i] in b && a[args[i]] == b[args[i]]
  }

  ghost function IndexArgs(args: seq<Symbol>, mapper: seq<nat>): (r: seq<Symbol>)
    requires forall p :: 0 <= p < |mapper| ==> mapper[p] < |args|
    ensures |r| == |mapper|
  {
    seq(|mapper|, p requires 0 <= p < |mapper| => args[mapper[p]])
  }

  lemma ProjectJoins(args: seq<Symbol>, uses: seq<Use>, mapper: seq<nat>, env: Env, t: Tuple)
    requires Distinct(args) && IsUse(args, env.Keys, uses) && (forall p :: 0 <= p < |mapper| ==> mapper[p] < |args|) && |t| == |args|
    requires Covers(uses, mapper)
    ensures Joins(args, t, env) <==> Joins(IndexArgs(args, mapper), Project(t, mapper), env)
  {
    if Joins(IndexArgs(args, mapper), Project(t, mapper), env) {
      forall i | 0 <= i < |args| && args[i] in env
        ensures t[i] == env[args[i]]
      {
        var p :| 0 <= p < |mapper| && mapper[p] == i;
        assert IndexArgs(args, mapper)[p] == args[i];
      }
    }
  }

  lemma ProjectAssigns(args: seq<Symbol>, uses: seq<Use>, mapper: seq<nat>, env: Env, t: Tuple)
    requires Distinct(args) && IsUse(args, env.Keys, uses) && (forall p :: 0 <= p < |mapper| ==> mapper[p] < |args|) && |t| == |args|
    requires Covers(uses, mapper) && Joins(args, t, env)
    ensures SameUsed(args, uses, env, Assign(args, t, env), Assign(IndexArgs(args, mapper), Project(t, mapper), env))
  {
    var iargs, x := IndexArgs(args, mapper), Project(t, mapper);
    ProjectJoins(args, uses, mapper, env, t);
    AssignIs(args, t, env);
    AssignIs(iargs, x, env);
    var a, b := Assign(args, t, env), Assign(iargs, x, env);
    forall i | 0 <= i < |args| && uses[i] != Ignored
      ensures args[i] in a && args[i] in b && a[args[i]] == b[args[i]]
    {
      var p :| 0 <= p < |mapper| && mapper[p] == i;
      assert iargs[p] == args[i];
      assert Row(args, a)[i] == t[i] && Row(iargs, b)[p] == x[p];
    }
  }

  /** An index that holds every used column gives the same assignments of the used variables as the relation. */
  lemma IndexAloneIsJoin(args: seq<Symbol>, uses: seq<Use>, mapper: seq<nat>, rows: set<Tuple>, index: set<Tuple>, env: Env)
    requires Distinct(args) && IsUse(args, env.Keys, uses) && (forall p :: 0 <= p < |mapper| ==> mapper[p] < |args|)
    requires (forall t :: t in rows ==> |t| == |args|) && IsIndexOf(rows, mapper, index, |args|) && Covers(uses, mapper)
    ensures forall a :: a in JoinWith(args, rows, env) ==> exists b :: b in JoinWith(IndexArgs(args, mapper), index, env) && SameUsed(args, uses, env, a, b)
    ensures forall b :: b in JoinWith(IndexArgs(args, mapper), index, env) ==> exists a :: a in JoinWith(args, rows, env) && SameUsed(args, uses, env, a, b)
  {
    hide Joins, Assign, SameUsed;
    var iargs := IndexArgs(args, mapper);
    forall a | a in JoinWith(args, rows, env)
      ensures exists b :: b in JoinWith(iargs, index, env) && SameUsed(args, uses, env, a, b)
    {
      var t :| t in rows && Joins(args, t, env) && a == Assign(args, t, env);
      ProjectJoins(args, uses, mapper, env, t);
      ProjectAssigns(args, uses, mapper, env, t);
      assert Project(t, mapper) in index;
      assert Assign(iargs, Project(t, mapper), env) in JoinWith(iargs, index, env);
    }
    forall b | b in JoinWith(iargs, index, env)
      ensures exists a :: a in JoinWith(args, rows, env) && SameUsed(args, uses, env, a, b)
    {
      var x :| x in index && Joins(iargs, x, env) && b == Assign(iargs, x, env);
      var t :| t in rows && x == Project(t, mapper);
      ProjectJoins(args, uses, mapper, env, t);
      ProjectAssigns(args, uses, mapper, env, t);
      assert Assign(args, t, env) in JoinWith(args, rows, env);
    }
  }
}
