/** A program has one meaning at most, and one if every group of mutually dependent rules holds finitely many facts. */
module Meaning {
  import opened Values
  import opened Exprs
  import opened Program
  import opened Datalog
  import opened Graphs
  import opened Stratify
  import opened BodyEval
  import opened SemiNaive
  import opened StrataMagic
  import opened StageReady
  import opened Pipeline
  import opened Perfect

  /** What some rule of the group of `k` reads from outside the group. */
  ghost predicate ReadByGroup(prog: Prog, k: Symbol, n: Symbol) {
    n !in Group(prog, k) && exists g :: g in Group(prog, k) && n in ReadsOf(prog[g])
  }

  ghost predicate SameTable(a: Tables<Symbol>, b: Tables<Symbol>, n: Symbol) {
    (n in a <==> n in b) && (n in a ==> a[n] == b[n])
  }

  ghost predicate Sound(prog: Prog) {
    WellFormed(prog) && Stratifiable(prog)
  }

  /** What a group member that is computed once reads stands outside the group. */
  lemma OnceReadsOutside(prog: Prog, k: Symbol, g: Symbol, n: Symbol)
    requires Sound(prog) && Reachable(prog, k) && g in Group(prog, k) && IsOnce(prog[g]) && n in ReadsOf(prog[g])
    ensures ReadByGroup(prog, k, n)
  {
    hide ReadsOf, IsOnce, AllMeet, RulesWellFormed, Depends, Poisons, Reach;
    DependsIsReads(prog, g, n);
    ReachTrans(DepEdges(prog), PROG_ENTRY, k, g);
    OnceNeedsComplete(prog, g, n);
    if n in Group(prog, k) {
      ReachTrans(DepEdges(prog), n, k, g);
    }
  }

  lemma SameInputs(prog: Prog, k: Symbol, g: Symbol, a: Tables<Symbol>, b: Tables<Symbol>)
    requires Sound(prog) && Reachable(prog, k) && g in Group(prog, k) && g in prog && IsOnce(prog[g])
    requires forall n :: ReadByGroup(prog, k, n) ==> SameTable(a, b, n)
    ensures Inputs(prog[g], a) == Inputs(prog[g], b)
  {
    hide ReadsOf, IsOnce, Sound, Reachable, Group, ReadByGroup;
    GroupRule(prog, k, g);
    forall n | n in ReadsOf(prog[g])
      ensures SameTable(a, b, n)
    {
      OnceReadsOutside(prog, k, g, n);
    }
  }

  /** What a group holds depends on what it reads from outside, and on nothing else. */
  lemma GroupAgrees(w: World, prog: Prog, once: OnceFn<Symbol>, k: Symbol, a: Tables<Symbol>, b: Tables<Symbol>, f: Symbol, t: Tuple)
    requires Sound(prog) && Reachable(prog, k) && f in Group(prog, k)
    requires forall n :: ReadByGroup(prog, k, n) ==> SameTable(a, b, n)
    ensures Fact(f, t) in Least(w, Group(prog, k), GroupBase(prog, once, k, a)) <==> Fact(f, t) in Least(w, Group(prog, k), GroupBase(prog, once, k, b))
  {
    hide ReadsOf, IsOnce, Sound, Reachable, GroupBase, Least, Inputs, SameTable, Reach;
    var names := iset n | n in Group(prog, k) || ReadByGroup(prog, k, n);
    var x, y := GroupBase(prog, once, k, a), GroupBase(prog, once, k, b);
    forall g: Fact<Symbol> | g.name in names
      ensures g in x <==> g in y
    {
      assert g == Fact(g.name, g.tuple);
      GroupBaseAt(prog, once, k, a, g.name, g.tuple);
      GroupBaseAt(prog, once, k, b, g.name, g.tuple);
      if g.name in Group(prog, k) {
        if IsOnce(prog[g.name]) {
          SameInputs(prog, k, g.name, a, b);
        }
      } else {
        assert SameTable(a, b, g.name);
        SameMeans(a, b, g.name);
      }
    }
    forall g, r, z | HasRule(Group(prog, k), g, r) && z in r.body && (z.Rule? || z.NegatedRule?)
      ensures z.name in names
    {
      ReadsAtom(Group(prog, k), g, r, z);
    }
    LeastAgrees(w, Group(prog, k), x, y, names);
  }

  lemma SameMeans(a: Tables<Symbol>, b: Tables<Symbol>, n: Symbol)
    requires SameTable(a, b, n)
    ensures (n in a <==> n in b) && (n in a ==> a[n] == b[n])
  {
  }

  /** What a group reads is used by the query, and lies further down. */
  lemma ReadLower(prog: Prog, k: Symbol, n: Symbol)
    requires WellFormed(prog) && k in prog && Reachable(prog, k) && ReadByGroup(prog, k, n)
    ensures n in prog && Reachable(prog, n) && Below(prog, n) < Below(prog, k)
  {
    hide ReadsOf, IsOnce, RulesWellFormed, Depends, Reach, MeetReadsItself;
    var g :| g in Group(prog, k) && n in ReadsOf(prog[g]);
    DependsIsReads(prog, g, n);
    ReachEdge(DepEdges(prog), g, n);
    ReachTrans(DepEdges(prog), PROG_ENTRY, k, g);
    ReachTrans(DepEdges(prog), PROG_ENTRY, g, n);
    BelowShrinks(prog, k, g, n);
  }

  // ----- at most one -----

  lemma {:induction false} PerfectTables(w: World, prog: Prog, once: OnceFn<Symbol>, a: Tables<Symbol>, b: Tables<Symbol>, k: Symbol)
    requires Sound(prog) && IsPerfect(w, prog, once, a) && IsPerfect(w, prog, once, b) && k in prog && Reachable(prog, k)
    ensures k in a && k in b && a[k] == b[k]
    decreases Below(prog, k)
  {
    hide ReadByGroup, Group, Below, Reachable, GroupBase, Least, WellFormed, Stratifiable;
    forall n | ReadByGroup(prog, k, n)
      ensures SameTable(a, b, n)
    {
      ReadLower(prog, k, n);
      PerfectTables(w, prog, once, a, b, n);
    }
    InOwnGroup(prog, k);
    forall t
      ensures t in a[k] <==> t in b[k]
    {
      GroupAgrees(w, prog, once, k, a, b, k, t);
    }
  }

  /** A stratifiable program has no two meanings. */
  lemma PerfectUnique(w: World, prog: Prog, once: OnceFn<Symbol>, a: Tables<Symbol>, b: Tables<Symbol>)
    requires WellFormed(prog) && Stratifiable(prog) && IsPerfect(w, prog, once, a) && IsPerfect(w, prog, once, b)
    ensures a == b
  {
    hide WellFormed, Stratifiable, Reachable, GroupBase, Least, Group;
    forall k | k in a
      ensures k in b && a[k] == b[k]
    {
      PerfectTables(w, prog, once, a, b, k);
    }
    assert a.Keys == b.Keys;
  }

  // ----- at least one -----

  /** The table of `k` is what its group holds. */
  ghost predicate HoldsAt(w: World, prog: Prog, once: OnceFn<Symbol>, mean: Tables<Symbol>, k: Symbol) {
    k in mean && forall t :: t in mean[k] <==> Fact(k, t) in Least(w, Group(prog, k), GroupBase(prog, once, k, mean))
  }

  /** Everything below the group of `k` means what it should. */
  ghost predicate HoldsBelow(w: World, prog: Prog, once: OnceFn<Symbol>, mean: Tables<Symbol>, k: Symbol) {
    forall n :: n in Below(prog, k) && n !in Group(prog, k) ==> HoldsAt(w, prog, once, mean, n)
  }

  ghost predicate GroupWithin(w: World, prog: Prog, once: OnceFn<Symbol>, mean: Tables<Symbol>, k: Symbol, bound: set<Fact<Symbol>>) {
    forall f, t :: f in Group(prog, k) && Fact(f, t) in Least(w, Group(prog, k), GroupBase(prog, once, k, mean)) ==> Fact(f, t) in bound
  }

  /** Once everything below it is known, every group holds finitely many facts. */
  ghost predicate FiniteGroups(w: World, prog: Prog, once: OnceFn<Symbol>) {
    forall k, mean :: k in prog && Reachable(prog, k) && HoldsBelow(w, prog, once, mean, k) ==> exists bound :: GroupWithin(w, prog, once, mean, k, bound)
  }

  /** Tables for the names in `done`, which lack nothing they depend on. */
  ghost predicate Building(w: World, prog: Prog, once: OnceFn<Symbol>, done: set<Symbol>, mean: Tables<Symbol>) {
    && mean.Keys == done
    && (forall k :: k in done ==> k in prog && Reachable(prog, k) && Below(prog, k) <= done)
    && (forall k :: k in done ==> HoldsAt(w, prog, once, mean, k))
  }

  /** Of the names not yet done, one with nothing undone below its group. */
  lemma {:induction false} NextGroup(prog: Prog, done: set<Symbol>, k0: Symbol) returns (k: Symbol)
    requires WellFormed(prog) && k0 in prog && Reachable(prog, k0) && k0 !in done
    ensures k in prog && Reachable(prog, k) && k !in done && forall n :: n in Below(prog, k) && n !in Group(prog, k) ==> n in done
    decreases Below(prog, k0)
  {
    hide WellFormed;
    if n :| n in Below(prog, k0) && n !in Group(prog, k0) && n !in done {
      LowerDown(prog, k0, n);
      k := NextGroup(prog, done, n);
    } else {
      k := k0;
    }
  }

  lemma LowerDown(prog: Prog, k: Symbol, n: Symbol)
    requires k in prog && Reachable(prog, k) && n in Below(prog, k) && n !in Group(prog, k)
    ensures Reachable(prog, n) && Below(prog, n) < Below(prog, k)
  {
    hide Reach;
    ReachTrans(DepEdges(prog), PROG_ENTRY, k, n);
    ReachRefl(DepEdges(prog), k);
    forall f | f in Below(prog, n)
      ensures f in Below(prog, k)
    {
      ReachTrans(DepEdges(prog), k, n, f);
    }
    assert k in Below(prog, k) && k !in Below(prog, n);
  }

  /** A group is done as a whole or not at all. */
  lemma GroupUndone(w: World, prog: Prog, once: OnceFn<Symbol>, done: set<Symbol>, mean: Tables<Symbol>, k: Symbol, f: Symbol)
    requires Building(w, prog, once, done, mean) && k in prog && k !in done && f in Group(prog, k)
    ensures f !in done
  {
    hide Building, Group;
    if f in done {
      GroupTogether(w, prog, once, done, mean, k, f);
    }
  }

  lemma GroupTogether(w: World, prog: Prog, once: OnceFn<Symbol>, done: set<Symbol>, mean: Tables<Symbol>, k: Symbol, f: Symbol)
    requires Building(w, prog, once, done, mean) && k in prog && f in done && f in Group(prog, k)
    ensures k in done
  {
    hide HoldsAt, Reachable, Reach;
    assert k in Below(prog, f);
  }

  /** The facts of a group as tables. */
  ghost function Extended(w: World, prog: Prog, once: OnceFn<Symbol>, mean: Tables<Symbol>, k: Symbol, bound: set<Fact<Symbol>>): Tables<Symbol> {
    mean + map f | f in Group(prog, k) ::
      set x | x in bound && x.name == f && x in Least(w, Group(prog, k), GroupBase(prog, once, k, mean)) :: x.tuple
  }

  lemma ExtendedAt(w: World, prog: Prog, once: OnceFn<Symbol>, mean: Tables<Symbol>, k: Symbol, bound: set<Fact<Symbol>>, f: Symbol, t: Tuple)
    requires GroupWithin(w, prog, once, mean, k, bound) && f in Group(prog, k)
    ensures var next := Extended(w, prog, once, mean, k, bound);
            f in next && (t in next[f] <==> Fact(f, t) in Least(w, Group(prog, k), GroupBase(prog, once, k, mean)))
  {
    hide Least, GroupBase, Group;
    if Fact(f, t) in Least(w, Group(prog, k), GroupBase(prog, once, k, mean)) {
      assert Fact(f, t) in bound;
    }
  }

  /** What a name reads keeps its table when a group is added that does not lie below. */
  lemma ReadsKept(w: World, prog: Prog, once: OnceFn<Symbol>, done: set<Symbol>, mean: Tables<Symbol>, k: Symbol, bound: set<Fact<Symbol>>, n: Symbol, x: Symbol)
    requires WellFormed(prog) && Building(w, prog, once, done, mean) && k in prog && Reachable(prog, k) && k !in done
    requires forall y :: y in Below(prog, k) && y !in Group(prog, k) ==> y in done
    requires n in done || n in Group(prog, k)
    requires n in prog && Reachable(prog, n) && ReadByGroup(prog, n, x)
    ensures SameTable(mean, Extended(w, prog, once, mean, k, bound), x) && x in done
  {
    hide Least, GroupBase, HoldsAt, WellFormed, ReadByGroup, Reachable, Reach;
    ReadLower(prog, n, x);
    assert x in Below(prog, n) by { SelfBelow(prog, n, x); }
    if n in Group(prog, k) {
      assert x !in Group(prog, n) by { OutsideOwn(prog, n, x); }
      GroupOf(prog, k, n);
      assert x in Below(prog, k) by { SameBelow(prog, k, n, x); }
    }
    assert x in done;
    if x in Group(prog, k) {
      GroupUndone(w, prog, once, done, mean, k, x);
    }
  }

  lemma SelfBelow(prog: Prog, n: Symbol, x: Symbol)
    requires x in prog && Below(prog, x) <= Below(prog, n)
    ensures x in Below(prog, n)
  {
    ReachRefl(DepEdges(prog), x);
    assert x in Below(prog, x);
  }

  lemma OutsideOwn(prog: Prog, n: Symbol, x: Symbol)
    requires ReadByGroup(prog, n, x)
    ensures x !in Group(prog, n)
  {
  }

  lemma SameBelow(prog: Prog, k: Symbol, n: Symbol, x: Symbol)
    requires n in Group(prog, k) && x in Below(prog, n)
    ensures x in Below(prog, k)
  {
    hide Reach;
    ReachTrans(DepEdges(prog), k, n, x);
  }

  lemma AddGroup(w: World, prog: Prog, once: OnceFn<Symbol>, done: set<Symbol>, mean: Tables<Symbol>, k: Symbol, bound: set<Fact<Symbol>>)
    requires Sound(prog) && Building(w, prog, once, done, mean) && k in prog && Reachable(prog, k) && k !in done
    requires forall n :: n in Below(prog, k) && n !in Group(prog, k) ==> n in done
    requires GroupWithin(w, prog, once, mean, k, bound)
    ensures Building(w, prog, once, done + Group(prog, k).Keys, Extended(w, prog, once, mean, k, bound))
  {
    hide Least, GroupBase, WellFormed, Stratifiable, Reachable, Reach, GroupWithin, ReadByGroup, Extended, HoldsAt;
    var next := Extended(w, prog, once, mean, k, bound);
    var all := done + Group(prog, k).Keys;
    assert next.Keys == all by { ExtendedKeys(w, prog, once, mean, k, bound); }
    forall n | n in all
      ensures n in prog && Reachable(prog, n) && Below(prog, n) <= all
    {
      if n in Group(prog, k) {
        GroupMember(prog, k, n);
      }
    }
    forall n | n in all
      ensures HoldsAt(w, prog, once, next, n)
    {
      StillHolds(w, prog, once, done, mean, k, bound, n);
    }
  }

  lemma ExtendedKeys(w: World, prog: Prog, once: OnceFn<Symbol>, mean: Tables<Symbol>, k: Symbol, bound: set<Fact<Symbol>>)
    ensures Extended(w, prog, once, mean, k, bound).Keys == mean.Keys + Group(prog, k).Keys
    ensures forall n :: n in mean && n !in Group(prog, k) ==> Extended(w, prog, once, mean, k, bound)[n] == mean[n]
  {
    hide Group;
  }

  lemma GroupMember(prog: Prog, k: Symbol, n: Symbol)
    requires Reachable(prog, k) && n in Group(prog, k)
    ensures n in prog && Reachable(prog, n) && Below(prog, n) == Below(prog, k)
  {
    hide Reach;
    ReachTrans(DepEdges(prog), PROG_ENTRY, k, n);
    forall x
      ensures Reach(DepEdges(prog), n, x) <==> Reach(DepEdges(prog), k, x)
    {
      if Reach(DepEdges(prog), n, x) { ReachTrans(DepEdges(prog), k, n, x); }
      if Reach(DepEdges(prog), k, x) { ReachTrans(DepEdges(prog), n, k, x); }
    }
  }

  lemma StillHolds(w: World, prog: Prog, once: OnceFn<Symbol>, done: set<Symbol>, mean: Tables<Symbol>, k: Symbol, bound: set<Fact<Symbol>>, n: Symbol)
    requires Sound(prog) && Building(w, prog, once, done, mean) && k in prog && Reachable(prog, k) && k !in done
    requires forall x :: x in Below(prog, k) && x !in Group(prog, k) ==> x in done
    requires GroupWithin(w, prog, once, mean, k, bound) && n in done + Group(prog, k).Keys
    ensures HoldsAt(w, prog, once, Extended(w, prog, once, mean, k, bound), n)
  {
    hide Least, GroupBase, WellFormed, Stratifiable, Reachable, GroupWithin, ReadByGroup, Extended, Below, Group;
    var next := Extended(w, prog, once, mean, k, bound);
    ExtendedKeys(w, prog, once, mean, k, bound);
    if n in Group(prog, k) {
      GroupMember(prog, k, n);
      GroupOf(prog, k, n);
      SameGroupBase(prog, once, k, n, mean);
    } else {
      assert HoldsAt(w, prog, once, mean, n);
    }
    InOwnGroup(prog, n);
    forall x | ReadByGroup(prog, n, x)
      ensures SameTable(mean, next, x)
    {
      ReadsKept(w, prog, once, done, mean, k, bound, n, x);
    }
    forall t
      ensures t in next[n] <==> Fact(n, t) in Least(w, Group(prog, n), GroupBase(prog, once, n, next))
    {
      GroupAgrees(w, prog, once, n, mean, next, n, t);
      if n in Group(prog, k) {
        ExtendedAt(w, prog, once, mean, k, bound, n, t);
      }
    }
  }

  lemma {:induction false} BuildPerfect(w: World, prog: Prog, once: OnceFn<Symbol>, done: set<Symbol>, mean: Tables<Symbol>) returns (all: Tables<Symbol>)
    requires Sound(prog) && FiniteGroups(w, prog, once) && Building(w, prog, once, done, mean)
    ensures IsPerfect(w, prog, once, all)
    decreases prog.Keys - done
  {
    hide Least, GroupBase, WellFormed, Stratifiable, Reachable, GroupWithin, Extended, Reach, Below;
    if k0 :| k0 in prog && Reachable(prog, k0) && k0 !in done {
      var k := NextGroup(prog, done, k0);
      assert HoldsBelow(w, prog, once, mean, k);
      var bound :| GroupWithin(w, prog, once, mean, k, bound);
      AddGroup(w, prog, once, done, mean, k, bound);
      InOwnGroup(prog, k);
      all := BuildPerfect(w, prog, once, done + Group(prog, k).Keys, Extended(w, prog, once, mean, k, bound));
    } else {
      all := mean;
    }
  }

  /** A stratifiable program has a meaning if every group holds finitely many facts once everything below it is known. */
  lemma PerfectExists(w: World, prog: Prog, once: OnceFn<Symbol>) returns (mean: Tables<Symbol>)
    requires WellFormed(prog) && Stratifiable(prog) && FiniteGroups(w, prog, once)
    ensures IsPerfect(w, prog, once, mean)
  {
    hide IsPerfect, WellFormed, Stratifiable, FiniteGroups;
    mean := BuildPerfect(w, prog, once, {}, map[]);
  }
}
