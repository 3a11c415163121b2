/** The magic-sets rewrite of one stratum (query/magic.rs): adornment, then splitting of rule bodies. */
module MagicSets {
  import opened Wrappers
  import opened Exprs
  import opened Program
  import opened Datalog

  // ----- adornment -----

  /** An argument is bound when an earlier atom, or an earlier argument, already names it. */
  function AdornArgs(args: seq<Symbol>, seen: set<Symbol>): (r: seq<bool>)
    ensures |r| == |args|
  {
    seq(|args|, i requires 0 <= i < |args| => args[i] in seen || args[i] in args[..i])
  }

  /** Rules in `rw` are renamed by how they are called; everything else keeps its plain name. */
  function AdornAtom(a: Atom<Symbol>, seen: set<Symbol>, rw: set<Symbol>): Atom<MagicSymbol> {
    match a
    case Rule(n, args) => if n in rw then Rule(Magic(n, AdornArgs(args, seen)), args) else Rule(Muggle(n), args)
    case NegatedRule(n, args) => NegatedRule(Muggle(n), args)
    case Relation(r, args, at) => Relation(r, args, at)
    case NegatedRelation(r, args, at) => NegatedRelation(r, args, at)
    case Predicate(e) => Predicate(e)
    case Unification(b, e, m) => Unification(b, e, m)
    case Search(spec, q, bs) => Search(spec, q, bs)
  }

  /** What adornment has seen after an atom: applications of plainly named rules are not recorded. */
  function AdornSeen(a: Atom<Symbol>, seen: set<Symbol>, rw: set<Symbol>): set<Symbol> {
    if a.Rule? && a.name !in rw then seen else seen + Binds(a)
  }

  function SeenBefore(body: seq<Atom<Symbol>>, seen: set<Symbol>, rw: set<Symbol>, k: nat): set<Symbol>
    requires k <= |body|
  {
    if k == 0 then seen else AdornSeen(body[k - 1], SeenBefore(body, seen, rw, k - 1), rw)
  }

  function AdornBody(body: seq<Atom<Symbol>>, seen: set<Symbol>, rw: set<Symbol>): seq<Atom<MagicSymbol>> {
    seq(|body|, i requires 0 <= i < |body| => AdornAtom(body[i], SeenBefore(body, seen, rw, i), rw))
  }

  function AdornRule(r: InlineRule<Symbol>, seen: set<Symbol>, rw: set<Symbol>): InlineRule<MagicSymbol> {
    InlineRule(r.head, r.aggr, AdornBody(r.body, seen, rw))
  }

  /** The entries of `xs` at the bound positions. */
  function Select<T>(xs: seq<T>, adornment: seq<bool>): seq<T> {
    if xs == [] || adornment == [] then []
    else (if adornment[0] then [xs[0]] else []) + Select(xs[1..], adornment[1..])
  }

  function HeadBound(head: seq<Symbol>, adornment: seq<bool>): set<Symbol> {
    set s | s in Select(head, adornment)
  }

  /** The rules of head `h` in the adorned program. */
  function AdornRules(rules: seq<InlineRule<Symbol>>, adornment: seq<bool>, rw: set<Symbol>): (r: seq<InlineRule<MagicSymbol>>)
    ensures |r| == |rules|
  {
    seq(|rules|, i requires 0 <= i < |rules| => AdornRule(rules[i], HeadBound(rules[i].head, adornment), rw))
  }

  function AdornArg(a: FixedRuleArg<Symbol>): FixedRuleArg<MagicSymbol> {
    match a
    case InMem(n) => InMem(Muggle(n))
    case Stored(r, at) => Stored(r, at)
  }

  /** Fixed rules read their in-memory arguments under plain names. */
  function AdornFixed(f: RulesOrFixed<Symbol>): RulesOrFixed<MagicSymbol>
    requires f.Fixed?
  {
    Fixed(f.handle, seq(|f.ruleArgs|, i requires 0 <= i < |f.ruleArgs| => AdornArg(f.ruleArgs[i])))
  }

  /** Every adorned name that occurs in a body has its own rules. */
  ghost predicate CallsDefined(adorned: Rules<MagicSymbol>, rules: seq<InlineRule<MagicSymbol>>) {
    forall i, j :: 0 <= i < |rules| && 0 <= j < |rules[i].body| && rules[i].body[j].Rule? && rules[i].body[j].name.Magic? ==>
      rules[i].body[j].name in adorned
  }

  /** `adorned` is the program `p` with the rules in `rw` specialised to the ways they are called. */
  ghost predicate IsAdorned(p: Rules<Symbol>, rw: set<Symbol>, adorned: Rules<MagicSymbol>) {
    && (forall n :: n in p && n !in rw ==> Muggle(n) in adorned)
    && (forall h :: h in adorned ==>
          && h.inner in p
          && (if h.Muggle? then h.inner !in rw else h.Magic? && h.inner in rw && adorned[h].Rules?)
          && (adorned[h].Rules? <==> p[h.inner].Rules?)
          && (adorned[h].Fixed? ==> adorned[h] == AdornFixed(p[h.inner]))
          && (adorned[h].Rules? ==>
                && adorned[h].rules == AdornRules(p[h.inner].rules, h.MagicAdornment(), rw)
                && CallsDefined(adorned, adorned[h].rules)))
  }

  // ----- splitting the body of a rule -----

  /** Sets of symbols are kept as ascending lists. */
  predicate Precedes(a: Symbol, b: Symbol) {
    if b == "" then false
    else if a == "" then true
    else a[0] < b[0] || (a[0] == b[0] && Precedes(a[1..], b[1..]))
  }

  function InsertNew(v: seq<Symbol>, s: Symbol): (r: seq<Symbol>)
    ensures forall x :: x in r <==> x in v || x == s
  {
    if v == [] || Precedes(s, v[0]) then [s] + v
    else
      assert v == [v[0]] + v[1..];
      [v[0]] + InsertNew(v[1..], s)
  }

  function Insert(v: seq<Symbol>, s: Symbol): (r: seq<Symbol>)
    ensures forall x :: x in r <==> x in v || x == s
  {
    if s in v then v else InsertNew(v, s)
  }

  function InsertAll(v: seq<Symbol>, ss: seq<Symbol>): (r: seq<Symbol>)
    ensures forall x :: x in r <==> x in v || x in ss
  {
    if ss == [] then v
    else
      assert ss == ss[..|ss| - 1] + [ss[|ss| - 1]];
      Insert(InsertAll(v, ss[..|ss| - 1]), ss[|ss| - 1])
  }

  /** The variables bound by an atom, in the order they are recorded. */
  function BindList<S>(a: Atom<S>): (r: seq<Symbol>)
    ensures (set s | s in r) == Binds(a)
  {
    match a
    case Rule(_, args) => args
    case Relation(_, args, _) => args
    case Unification(b, _, _) => [b]
    case Search(_, _, bs) => bs
    case NegatedRule(_, _) => []
    case NegatedRelation(_, _, _) => []
    case Predicate(_) => []
  }

  datatype Emitted = Emitted(key: MagicSymbol, rule: InlineRule<MagicSymbol>)

  /** The state while the atoms of one rule are moved over: atoms not yet flushed, variables seen,
      the next supplementary index, and the rules emitted so far. */
  datatype Rewrite = Rewrite(atoms: seq<Atom<MagicSymbol>>, seen: seq<Symbol>, sups: nat, out: seq<Emitted>)

  function PlainRule(head: seq<Symbol>, body: seq<Atom<MagicSymbol>>): InlineRule<MagicSymbol> {
    InlineRule(head, seq(|head|, _ => None), body)
  }

  function SupName(h: MagicSymbol, idx: nat, sups: nat): MagicSymbol {
    Sup(h.inner, h.MagicAdornment(), idx, sups)
  }

  function InputName(h: MagicSymbol): MagicSymbol {
    Input(h.inner, h.MagicAdornment())
  }

  function Start(h: MagicSymbol, idx: nat, r: InlineRule<MagicSymbol>): Rewrite {
    if h.HasBoundAdornment() then
      var sup, args := SupName(h, idx, 0), Select(r.head, h.MagicAdornment());
      Rewrite([Rule(sup, args)], InsertAll([], args), 1, [Emitted(sup, PlainRule(args, [Rule(InputName(h), args)]))])
    else Rewrite([], [], 0, [])
  }

  function Step(h: MagicSymbol, idx: nat, st: Rewrite, a: Atom<MagicSymbol>): Rewrite {
    if a.Rule? && a.name.HasBoundAdornment() then
      var sup := SupName(h, idx, st.sups);
      var app := Rule(sup, st.seen);
      Rewrite([app, a], InsertAll(st.seen, BindList(a)), st.sups + 1,
              st.out + [Emitted(sup, PlainRule(st.seen, st.atoms)),
                        Emitted(InputName(a.name), PlainRule(Select(a.args, a.name.MagicAdornment()), [app]))])
    else Rewrite(st.atoms + [a], InsertAll(st.seen, BindList(a)), st.sups, st.out)
  }

  /** The state after the first `k` atoms. */
  function RewriteBody(h: MagicSymbol, idx: nat, r: InlineRule<MagicSymbol>, k: nat): Rewrite
    requires k <= |r.body|
  {
    if k == 0 then Start(h, idx, r) else Step(h, idx, RewriteBody(h, idx, r, k - 1), r.body[k - 1])
  }

  /** All the rules that one adorned rule turns into. */
  function RewriteRule(h: MagicSymbol, idx: nat, r: InlineRule<MagicSymbol>): seq<Emitted> {
    var st := RewriteBody(h, idx, r, |r.body|);
    st.out + [Emitted(h, InlineRule(r.head, r.aggr, st.atoms))]
  }

  ghost predicate Emits(adorned: Rules<MagicSymbol>, e: Emitted, h: MagicSymbol, idx: nat) {
    h in adorned && adorned[h].Rules? && idx < |adorned[h].rules| && e in RewriteRule(h, idx, adorned[h].rules[idx])
  }

  ghost predicate EmittedBySome(adorned: Rules<MagicSymbol>, e: Emitted) {
    exists h, idx :: Emits(adorned, e, h, idx)
  }

  /** `m` holds exactly the rules that the adorned rules turn into, and the fixed rules as they were. */
  ghost predicate IsRewritten(adorned: Rules<MagicSymbol>, m: Rules<MagicSymbol>) {
    && (forall key, r :: HasRule(m, key, r) <==> EmittedBySome(adorned, Emitted(key, r)))
    && (forall h :: h in adorned && adorned[h].Fixed? ==> h in m && m[h] == adorned[h])
  }
}
