/** The loops that carry out the magic-sets rewrite of one stratum (query/magic.rs). */
module MagicRewrite {
  import opened Wrappers
  import opened Exprs
  import opened Program
  import opened Datalog
  import opened MagicSets
  import opened NamedGraph
  import MagicCorrect

  // ----- adornment -----

  function MagicCalls(body: seq<Atom<MagicSymbol>>): (r: seq<MagicSymbol>)
    ensures forall c :: c in r <==> exists j :: 0 <= j < |body| && body[j].Rule? && body[j].name.Magic? && body[j].name == c
  {
    if body == [] then []
    else
      var last := body[|body| - 1];
      var rest := body[..|body| - 1];
      assert body == rest + [last];
      MagicCalls(rest) + if last.Rule? && last.name.Magic? then [last.name] else []
  }

  lemma MagicCallsNone(body: seq<Atom<MagicSymbol>>)
    requires body == []
    ensures MagicCalls(body) == []
  {
  }

  lemma MagicCallsAppend(body: seq<Atom<MagicSymbol>>, b: Atom<MagicSymbol>)
    ensures MagicCalls(body + [b]) == MagicCalls(body) + if b.Rule? && b.name.Magic? then [b.name] else []
  {
    assert (body + [b])[..|body + [b]| - 1] == body;
  }

  /** Adorns one rule and queues the adorned names it calls. */
  method AdornOneRule(r: InlineRule<Symbol>, seen0: set<Symbol>, rw: set<Symbol>, pending: seq<MagicSymbol>)
    returns (adorned: InlineRule<MagicSymbol>, queue: seq<MagicSymbol>)
    ensures adorned == AdornRule(r, seen0, rw)
    ensures queue == pending + MagicCalls(adorned.body)
  {
    hide AdornAtom, AdornSeen, MagicCalls;
    var body: seq<Atom<MagicSymbol>> := [];
    var seen := seen0;
    queue := pending;
    MagicCallsNone(body);
    for i := 0 to |r.body|
      invariant body == AdornBody(r.body, seen0, rw)[..i]
      invariant seen == SeenBefore(r.body, seen0, rw, i)
      invariant queue == pending + MagicCalls(body)
    {
      var a := r.body[i];
      var b := AdornAtom(a, seen, rw);
      MagicCallsAppend(body, b);
      if b.Rule? && b.name.Magic? {
        queue := queue + [b.name];
      }
      seen := AdornSeen(a, seen, rw);
      body := body + [b];
    }
    adorned := InlineRule(r.head, r.aggr, body);
  }

  ghost predicate CalledBySome(adorned: seq<InlineRule<MagicSymbol>>, c: MagicSymbol) {
    exists i :: 0 <= i < |adorned| && c in MagicCalls(adorned[i].body)
  }

  lemma CalledByOneMore(adorned: seq<InlineRule<MagicSymbol>>, ar: InlineRule<MagicSymbol>, c: MagicSymbol)
    ensures CalledBySome(adorned + [ar], c) <==> CalledBySome(adorned, c) || c in MagicCalls(ar.body)
  {
    hide MagicCalls;
    var all := adorned + [ar];
    if CalledBySome(adorned, c) {
      var i :| 0 <= i < |adorned| && c in MagicCalls(adorned[i].body);
      assert all[i] == adorned[i];
    }
    assert all[|adorned|] == ar;
  }

  /** Adorns all rules of a head called with `adornment`. */
  method AdornHead(rules: seq<InlineRule<Symbol>>, adornment: seq<bool>, rw: set<Symbol>, pending: seq<MagicSymbol>)
    returns (adorned: seq<InlineRule<MagicSymbol>>, queue: seq<MagicSymbol>)
    ensures adorned == AdornRules(rules, adornment, rw)
    ensures pending <= queue
    ensures forall c :: c in queue[|pending|..] <==> CalledBySome(adorned, c)
  {
    hide MagicCalls, AdornRule, HeadBound;
    adorned, queue := [], pending;
    ghost var calls: seq<MagicSymbol> := [];
    for i := 0 to |rules|
      invariant adorned == AdornRules(rules, adornment, rw)[..i]
      invariant queue == pending + calls
      invariant forall c :: c in calls <==> CalledBySome(adorned, c)
    {
      var ar, p' := AdornOneRule(rules[i], HeadBound(rules[i].head, adornment), rw, queue);
      ghost var calls' := calls + MagicCalls(ar.body);
      ghost var adorned' := adorned + [ar];
      forall c
        ensures c in calls' <==> CalledBySome(adorned', c)
      {
        CalledByOneMore(adorned, ar, c);
      }
      queue, calls, adorned := p', calls', adorned + [ar];
    }
  }

  /** All adornments of at most the given length. */
  ghost function Adornments(len: nat): (r: set<seq<bool>>)
    ensures forall s: seq<bool> :: |s| <= len ==> s in r
  {
    if len == 0 then {[]}
    else
      var shorter := Adornments(len - 1);
      var r := {[]} + (set s, b | s in shorter && b in {false, true} :: [b] + s);
      assert forall s: seq<bool> :: |s| <= len ==> s in r by {
        forall s: seq<bool> | |s| <= len
          ensures s in r
        {
          if s != [] {
            assert s == [s[0]] + s[1..];
            assert s[1..] in shorter && s[0] in {false, true};
          }
        }
      }
      r
  }

  /** No application has more than `len` arguments. */
  ghost predicate ArityAtMost(p: Rules<Symbol>, len: nat) {
    forall n, i, j :: n in p && p[n].Rules? && 0 <= i < |p[n].rules| && 0 <= j < |p[n].rules[i].body| && p[n].rules[i].body[j].Rule? ==>
      |p[n].rules[i].body[j].args| <= len
  }

  /** Rules called by adorned names are ordinary rules; fixed rules are only reached by plain names. */
  ghost predicate CallsAreRules(p: Rules<Symbol>, rw: set<Symbol>) {
    forall n, i, j :: n in p && p[n].Rules? && 0 <= i < |p[n].rules| && 0 <= j < |p[n].rules[i].body| &&
                      p[n].rules[i].body[j].Rule? && p[n].rules[i].body[j].name in rw ==>
      p[n].rules[i].body[j].name in p && p[p[n].rules[i].body[j].name].Rules?
  }

  lemma SomeArity(p: Rules<Symbol>) returns (len: nat)
    ensures ArityAtMost(p, len)
  {
    var lens := set n, i, j | n in p && p[n].Rules? && 0 <= i < |p[n].rules| && 0 <= j < |p[n].rules[i].body| &&
                              p[n].rules[i].body[j].Rule? :: |p[n].rules[i].body[j].args|;
    len := HasBound(lens);
    forall n, i, j | n in p && p[n].Rules? && 0 <= i < |p[n].rules| && 0 <= j < |p[n].rules[i].body| && p[n].rules[i].body[j].Rule?
      ensures |p[n].rules[i].body[j].args| <= len
    {
      assert |p[n].rules[i].body[j].args| in lens;
    }
  }

  /** The adorned names that can be called at all. */
  ghost function Callable(rw: set<Symbol>, len: nat): (r: set<MagicSymbol>)
    ensures forall n, ad :: n in rw && |ad| <= len ==> Magic(n, ad) in r
  {
    set n, ad | n in rw && ad in Adornments(len) :: Magic(n, ad)
  }

  /** What holds of a head that has been adorned, calls aside. */
  ghost predicate HeadAdorned(p: Rules<Symbol>, rw: set<Symbol>, adorned: Rules<MagicSymbol>, h: MagicSymbol)
    requires h in adorned
  {
    && h.inner in p
    && (if h.Muggle? then h.inner !in rw else h.Magic? && h.inner in rw && adorned[h].Rules?)
    && (adorned[h].Rules? <==> p[h.inner].Rules?)
    && (adorned[h].Fixed? ==> adorned[h] == AdornFixed(p[h.inner]))
    && (adorned[h].Rules? ==> adorned[h].rules == AdornRules(p[h.inner].rules, h.MagicAdornment(), rw))
  }

  ghost predicate CallsQueued(adorned: Rules<MagicSymbol>, pending: seq<MagicSymbol>) {
    forall h, i, j :: h in adorned && adorned[h].Rules? && 0 <= i < |adorned[h].rules| && 0 <= j < |adorned[h].rules[i].body| &&
                      adorned[h].rules[i].body[j].Rule? && adorned[h].rules[i].body[j].name.Magic? ==>
      adorned[h].rules[i].body[j].name in adorned || adorned[h].rules[i].body[j].name in pending
  }

  ghost predicate PendingOk(p: Rules<Symbol>, rw: set<Symbol>, len: nat, pending: seq<MagicSymbol>) {
    forall c :: c in pending ==> c.Magic? && c.inner in rw && c.inner in p && p[c.inner].Rules? && |c.adornment| <= len
  }

  ghost predicate Adorning(p: Rules<Symbol>, rw: set<Symbol>, len: nat, adorned: Rules<MagicSymbol>, pending: seq<MagicSymbol>) {
    && (forall h :: h in adorned ==> HeadAdorned(p, rw, adorned, h))
    && CallsQueued(adorned, pending)
    && PendingOk(p, rw, len, pending)
  }

  /** Some adorned rule applies `c`. */
  ghost predicate Called(adorned: Rules<MagicSymbol>, c: MagicSymbol) {
    exists g, i :: g in adorned && adorned[g].Rules? && 0 <= i < |adorned[g].rules| && c in MagicCalls(adorned[g].rules[i].body)
  }

  /** Nothing is adorned, or waiting to be, that is not applied somewhere. */
  ghost predicate AllCalled(adorned: Rules<MagicSymbol>, pending: seq<MagicSymbol>) {
    && (forall h :: h in adorned && h.Magic? ==> Called(adorned, h))
    && (forall c :: c in pending ==> Called(adorned, c))
  }

  lemma AddHeadCalled(adorned: Rules<MagicSymbol>, pending: seq<MagicSymbol>, h: MagicSymbol, rules: seq<InlineRule<MagicSymbol>>,
                      pending': seq<MagicSymbol>, popped: seq<MagicSymbol>)
    requires AllCalled(adorned, pending) && (h in adorned ==> adorned[h] == Rules(rules)) && (h.Muggle? || h in pending)
    requires popped <= pending' && (forall c :: c in popped ==> c in pending)
    requires forall c :: c in pending'[|popped|..] <==> exists i :: 0 <= i < |rules| && c in MagicCalls(rules[i].body)
    ensures AllCalled(adorned[h := Rules(rules)], pending')
  {
    hide MagicCalls;
    var adorned' := adorned[h := RulesOrFixed.Rules(rules)];
    forall c | Called(adorned, c)
      ensures Called(adorned', c)
    {
      var g, i :| g in adorned && adorned[g].Rules? && 0 <= i < |adorned[g].rules| && c in MagicCalls(adorned[g].rules[i].body);
      assert adorned'[g] == adorned[g];
    }
    assert pending' == popped + pending'[|popped|..];
    forall c | c in pending'
      ensures Called(adorned', c)
    {
      if c !in popped {
        var i :| 0 <= i < |rules| && c in MagicCalls(rules[i].body);
        assert adorned'[h].rules == rules;
      }
    }
  }

  lemma AddFixedCalled(adorned: Rules<MagicSymbol>, pending: seq<MagicSymbol>, n: Symbol, fixed: RulesOrFixed<MagicSymbol>)
    requires AllCalled(adorned, pending) && fixed.Fixed? && (Muggle(n) in adorned ==> adorned[Muggle(n)] == fixed)
    ensures AllCalled(adorned[Muggle(n) := fixed], pending)
  {
    hide MagicCalls;
    var adorned' := adorned[Muggle(n) := fixed];
    forall c | Called(adorned, c)
      ensures Called(adorned', c)
    {
      var g, i :| g in adorned && adorned[g].Rules? && 0 <= i < |adorned[g].rules| && c in MagicCalls(adorned[g].rules[i].body);
      assert adorned'[g] == adorned[g];
    }
  }

  lemma AlreadyThere(p: Rules<Symbol>, rw: set<Symbol>, len: nat, adorned: Rules<MagicSymbol>, pending: seq<MagicSymbol>, h: MagicSymbol)
    requires Adorning(p, rw, len, adorned, pending) && h.inner in p && h in adorned
    ensures p[h.inner].Rules? ==> adorned[h] == Rules(AdornRules(p[h.inner].rules, h.MagicAdornment(), rw))
    ensures p[h.inner].Fixed? ==> adorned[h] == AdornFixed(p[h.inner])
  {
    hide AdornRules, AdornFixed;
    assert HeadAdorned(p, rw, adorned, h);
  }

  /** The calls of adorned rules are legitimate. */
  lemma CallsOk(p: Rules<Symbol>, rw: set<Symbol>, len: nat, n: Symbol, adornment: seq<bool>, c: MagicSymbol, i: nat)
    requires ArityAtMost(p, len) && CallsAreRules(p, rw) && n in p && p[n].Rules? && i < |p[n].rules|
    requires c in MagicCalls(AdornRules(p[n].rules, adornment, rw)[i].body)
    ensures c.Magic? && c.inner in rw && c.inner in p && p[c.inner].Rules? && |c.adornment| <= len
  {
    var r := p[n].rules[i];
    var seen := HeadBound(r.head, adornment);
    var body := AdornBody(r.body, seen, rw);
    var j :| 0 <= j < |body| && body[j].Rule? && body[j].name.Magic? && body[j].name == c;
    assert body[j] == AdornAtom(r.body[j], SeenBefore(r.body, seen, rw, j), rw);
  }

  /** Adding a head whose calls have all been queued. */
  lemma AddHead(p: Rules<Symbol>, rw: set<Symbol>, len: nat, adorned: Rules<MagicSymbol>, pending: seq<MagicSymbol>,
                h: MagicSymbol, rules: seq<InlineRule<MagicSymbol>>, pending': seq<MagicSymbol>, popped: seq<MagicSymbol>)
    requires Adorning(p, rw, len, adorned, pending)
    requires ArityAtMost(p, len) && CallsAreRules(p, rw)
    requires h.inner in p && p[h.inner].Rules? && (if h.Muggle? then h.inner !in rw else h.Magic? && h.inner in rw)
    requires rules == AdornRules(p[h.inner].rules, h.MagicAdornment(), rw)
    requires popped <= pending' && (forall c :: c in pending ==> c in popped || c == h) && (forall c :: c in popped ==> c in pending)
    requires forall c :: c in pending'[|popped|..] <==> exists i :: 0 <= i < |rules| && c in MagicCalls(rules[i].body)
    ensures Adorning(p, rw, len, adorned[h := Rules(rules)], pending')
  {
    var adorned' := adorned[h := RulesOrFixed.Rules(rules)];
    assert pending' == popped + pending'[|popped|..];
    forall c | c in pending'
      ensures c.Magic? && c.inner in rw && c.inner in p && p[c.inner].Rules? && |c.adornment| <= len
    {
      if c !in popped {
        var i :| 0 <= i < |rules| && c in MagicCalls(rules[i].body);
        CallsOk(p, rw, len, h.inner, h.MagicAdornment(), c, i);
      }
    }
    AddHeadCalls(adorned, pending, h, rules, pending', popped);
    assert forall g :: g in adorned' ==> HeadAdorned(p, rw, adorned', g) by {
      forall g | g in adorned'
        ensures HeadAdorned(p, rw, adorned', g)
      {
        if g != h {
          assert HeadAdorned(p, rw, adorned, g);
        }
      }
    }
  }

  lemma AddHeadCalls(adorned: Rules<MagicSymbol>, pending: seq<MagicSymbol>,
                     h: MagicSymbol, rules: seq<InlineRule<MagicSymbol>>, pending': seq<MagicSymbol>, popped: seq<MagicSymbol>)
    requires CallsQueued(adorned, pending)
    requires popped <= pending' && (forall c :: c in pending ==> c in popped || c == h)
    requires forall c :: c in pending'[|popped|..] <==> exists i :: 0 <= i < |rules| && c in MagicCalls(rules[i].body)
    ensures CallsQueued(adorned[h := Rules(rules)], pending')
  {
    var adorned' := adorned[h := RulesOrFixed.Rules(rules)];
    assert pending' == popped + pending'[|popped|..];
    forall g, i, j | g in adorned' && adorned'[g].Rules? && 0 <= i < |adorned'[g].rules| && 0 <= j < |adorned'[g].rules[i].body| &&
                     adorned'[g].rules[i].body[j].Rule? && adorned'[g].rules[i].body[j].name.Magic?
      ensures adorned'[g].rules[i].body[j].name in adorned' || adorned'[g].rules[i].body[j].name in pending'
    {
      var c := adorned'[g].rules[i].body[j].name;
      if g == h {
        assert c in MagicCalls(rules[i].body);
      } else {
        assert c in adorned || c in pending;
      }
    }
  }

  lemma AddFixed(p: Rules<Symbol>, rw: set<Symbol>, len: nat, adorned: Rules<MagicSymbol>, pending: seq<MagicSymbol>, n: Symbol)
    requires Adorning(p, rw, len, adorned, pending) && n in p && p[n].Fixed? && n !in rw
    ensures Adorning(p, rw, len, adorned[Muggle(n) := AdornFixed(p[n])], pending)
  {
    var adorned' := adorned[Muggle(n) := AdornFixed(p[n])];
    forall g | g in adorned'
      ensures HeadAdorned(p, rw, adorned', g)
    {
      if g != Muggle(n) {
        assert HeadAdorned(p, rw, adorned, g);
      }
    }
    forall g, i, j | g in adorned' && adorned'[g].Rules? && 0 <= i < |adorned'[g].rules| && 0 <= j < |adorned'[g].rules[i].body| &&
                     adorned'[g].rules[i].body[j].Rule? && adorned'[g].rules[i].body[j].name.Magic?
      ensures adorned'[g].rules[i].body[j].name in adorned' || adorned'[g].rules[i].body[j].name in pending
    {
      assert adorned[g].rules[i].body[j].name in adorned || adorned[g].rules[i].body[j].name in pending;
    }
  }

  lemma DropKnown(p: Rules<Symbol>, rw: set<Symbol>, len: nat, adorned: Rules<MagicSymbol>, pending: seq<MagicSymbol>)
    requires Adorning(p, rw, len, adorned, pending) && pending != [] && pending[|pending| - 1] in adorned
    ensures Adorning(p, rw, len, adorned, pending[..|pending| - 1])
  {
    assert forall c :: c in pending ==> c in pending[..|pending| - 1] || c == pending[|pending| - 1];
  }

  lemma AdornedInFull(p: Rules<Symbol>, rw: set<Symbol>, len: nat, adorned: Rules<MagicSymbol>)
    requires Adorning(p, rw, len, adorned, [])
    requires forall n :: n in p && n !in rw ==> Muggle(n) in adorned
    ensures IsAdorned(p, rw, adorned)
  {
    forall h | h in adorned && adorned[h].Rules?
      ensures CallsDefined(adorned, adorned[h].rules)
    {
      assert CallsQueued(adorned, []);
    }
    assert forall h :: h in adorned ==> HeadAdorned(p, rw, adorned, h);
  }

  /** Starts from the rules that keep their names and follows the calls until no new adorned name turns up. */
  method Adorn(p: Rules<Symbol>, names: seq<Symbol>, upstream: set<Symbol>) returns (adorned: Rules<MagicSymbol>)
    requires Enumerates(names, p)
    requires CallsAreRules(p, p.Keys - upstream)
    ensures IsAdorned(p, p.Keys - upstream, adorned)
    ensures forall h :: h in adorned && h.Magic? ==> Called(adorned, h)
  {
    hide Adorning, ArityAtMost, CallsAreRules, IsAdorned, Called;
    var rw := p.Keys - upstream;
    ghost var len := SomeArity(p);
    var pending: seq<MagicSymbol> := [];
    adorned := map[];
    StartAdorning(p, rw, len);
    for i := 0 to |names|
      invariant Adorning(p, rw, len, adorned, pending) && AllCalled(adorned, pending)
      invariant forall k :: 0 <= k < i && names[k] !in rw ==> Muggle(names[k]) in adorned
    {
      var n := names[i];
      assert n in p;
      if n !in rw {
        match p[n]
        case Fixed(_, _) =>
          AddFixed(p, rw, len, adorned, pending, n);
          if Muggle(n) in adorned {
            AlreadyThere(p, rw, len, adorned, pending, Muggle(n));
          }
          AddFixedCalled(adorned, pending, n, AdornFixed(p[n]));
          adorned := adorned[Muggle(n) := AdornFixed(p[n])];
        case Rules(rules) =>
          ghost var pending0 := pending;
          var ar;
          ar, pending := AdornHead(rules, [], rw, pending);
          AddHead(p, rw, len, adorned, pending0, Muggle(n), ar, pending, pending0);
          if Muggle(n) in adorned {
            AlreadyThere(p, rw, len, adorned, pending0, Muggle(n));
          }
          AddHeadCalled(adorned, pending0, Muggle(n), ar, pending, pending0);
          adorned := adorned[Muggle(n) := Rules(ar)];
      }
    }
    while pending != []
      invariant Adorning(p, rw, len, adorned, pending) && AllCalled(adorned, pending)
      invariant forall n :: n in p && n !in rw ==> Muggle(n) in adorned
      decreases Callable(rw, len) - adorned.Keys, |pending|
    {
      var head := pending[|pending| - 1];
      ghost var pending0 := pending;
      PendingIs(p, rw, len, adorned, pending, head);
      if head in adorned {
        DropKnown(p, rw, len, adorned, pending);
        pending := pending[..|pending| - 1];
      } else {
        pending := pending[..|pending| - 1];
        ghost var popped := pending;
        var ar;
        ar, pending := AdornHead(p[head.inner].rules, head.adornment, rw, pending);
        assert pending0 == popped + [head];
        AddHead(p, rw, len, adorned, pending0, head, ar, pending, popped);
        AddHeadCalled(adorned, pending0, head, ar, pending, popped);
        assert head in Callable(rw, len) - adorned.Keys;
        adorned := adorned[head := Rules(ar)];
      }
    }
    AdornedInFull(p, rw, len, adorned);
  }

  lemma StartAdorning(p: Rules<Symbol>, rw: set<Symbol>, len: nat)
    ensures Adorning(p, rw, len, map[], [])
  {
  }

  lemma PendingIs(p: Rules<Symbol>, rw: set<Symbol>, len: nat, adorned: Rules<MagicSymbol>, pending: seq<MagicSymbol>, c: MagicSymbol)
    requires Adorning(p, rw, len, adorned, pending) && c in pending
    ensures c.Magic? && c.inner in rw && c.inner in p && p[c.inner].Rules? && c in Callable(rw, len)
  {
    assert c == Magic(c.inner, c.adornment);
  }

  // ----- splitting the rules -----

  /** Appends a rule to those of its key. */
  function Push(m: Rules<MagicSymbol>, e: Emitted): Rules<MagicSymbol> {
    m[e.key := RulesOrFixed.Rules((if e.key in m && m[e.key].Rules? then m[e.key].rules else []) + [e.rule])]
  }

  /** `m'` is `m` with the rules `es` added and its fixed rules untouched. */
  ghost predicate Adds(m: Rules<MagicSymbol>, m': Rules<MagicSymbol>, es: seq<Emitted>) {
    && (forall k, r :: HasRule(m', k, r) <==> HasRule(m, k, r) || Emitted(k, r) in es)
    && (forall k :: k in m && m[k].Fixed? ==> k in m' && m'[k] == m[k])
    && (forall k :: k in m' && m'[k].Fixed? ==> k in m && m[k] == m'[k])
    && (forall k :: k in m' && k !in m ==> exists e :: e in es && e.key == k)
  }

  ghost predicate NotFixed(m: Rules<MagicSymbol>, k: MagicSymbol) {
    k in m ==> m[k].Rules?
  }

  lemma PushAdds(m: Rules<MagicSymbol>, e: Emitted)
    requires NotFixed(m, e.key)
    ensures Adds(m, Push(m, e), [e])
  {
    var m' := Push(m, e);
    var was := if e.key in m then m[e.key].rules else [];
    assert m'[e.key].rules == was + [e.rule];
    assert e in [e];
  }

  lemma AddsTrans(m: Rules<MagicSymbol>, m1: Rules<MagicSymbol>, m2: Rules<MagicSymbol>, es1: seq<Emitted>, es2: seq<Emitted>)
    requires Adds(m, m1, es1) && Adds(m1, m2, es2)
    ensures Adds(m, m2, es1 + es2)
  {
    forall k | k in m2 && k !in m
      ensures exists e :: e in es1 + es2 && e.key == k
    {
      if k in m1 {
        var e :| e in es1 && e.key == k;
        assert e in es1 + es2;
      } else {
        var e :| e in es2 && e.key == k;
        assert e in es1 + es2;
      }
    }
  }

  lemma AddsNone(m: Rules<MagicSymbol>)
    ensures Adds(m, m, [])
  {
  }

  lemma InsertAdds(m: Rules<MagicSymbol>, e: Emitted)
    requires e.key !in m
    ensures Adds(m, m[e.key := RulesOrFixed.Rules([e.rule])], [e])
  {
    assert e in [e];
  }

  /** Fixed rules stand only under plain names, and not under `h`. */
  ghost predicate PlainFixed(m: Rules<MagicSymbol>, h: MagicSymbol) {
    NotFixed(m, h) && forall k :: k in m && m[k].Fixed? ==> k.Muggle?
  }

  lemma AddsKeepsPlainFixed(m: Rules<MagicSymbol>, m': Rules<MagicSymbol>, es: seq<Emitted>, h: MagicSymbol)
    requires Adds(m, m', es) && PlainFixed(m, h)
    ensures PlainFixed(m', h)
  {
  }

  /** Rewrites one rule of the head `h` into the program. */
  method RewriteOneRule(h: MagicSymbol, idx: nat, r: InlineRule<MagicSymbol>, m: Rules<MagicSymbol>) returns (out: Rules<MagicSymbol>)
    requires h.Muggle? || h.Magic?
    requires PlainFixed(m, h) && SupName(h, idx, 0) !in m
    ensures Adds(m, out, RewriteRule(h, idx, r))
  {
    hide Adds, PlainFixed, NotFixed, Push, Select, InsertAll, BindList, MagicSymbol.MagicAdornment;
    out := m;
    var supIdx := 0;
    var collected: seq<Atom<MagicSymbol>> := [];
    var seen: seq<Symbol> := [];
    AddsNone(m);
    if h.HasBoundAdornment() {
      var sup := SupName(h, idx, supIdx);
      supIdx := supIdx + 1;
      var args := Select(r.head, h.MagicAdornment());
      InsertAdds(m, Emitted(sup, PlainRule(args, [Rule(InputName(h), args)])));
      out := out[sup := RulesOrFixed.Rules([PlainRule(args, [Rule(InputName(h), args)])])];
      seen := InsertAll(seen, args);
      collected := collected + [Rule(sup, args)];
    }
    for k := 0 to |r.body|
      invariant Rewrite(collected, seen, supIdx, RewriteBody(h, idx, r, k).out) == RewriteBody(h, idx, r, k)
      invariant Adds(m, out, RewriteBody(h, idx, r, k).out)
    {
      var a := r.body[k];
      ghost var st := RewriteBody(h, idx, r, k);
      if a.Rule? && a.name.HasBoundAdornment() {
        var sup := SupName(h, idx, supIdx);
        supIdx := supIdx + 1;
        var app := Rule(sup, seen);
        ghost var m0 := out;
        ghost var e1, e2 := Emitted(sup, PlainRule(seen, collected)),
                            Emitted(InputName(a.name), PlainRule(Select(a.args, a.name.MagicAdornment()), [app]));
        PushBoth(m, out, st.out, e1, e2, h);
        out := Push(out, Emitted(sup, PlainRule(seen, collected)));
        out := Push(out, Emitted(InputName(a.name), PlainRule(Select(a.args, a.name.MagicAdornment()), [app])));
        collected := [app];
      }
      seen := InsertAll(seen, BindList(a));
      collected := collected + [a];
    }
    ghost var emitted := RewriteBody(h, idx, r, |r.body|).out;
    AddsKeepsPlainFixed(m, out, emitted, h);
    PushFinal(m, out, emitted, Emitted(h, InlineRule(r.head, r.aggr, collected)));
    out := Push(out, Emitted(h, InlineRule(r.head, r.aggr, collected)));
  }

  lemma PushBoth(m: Rules<MagicSymbol>, m1: Rules<MagicSymbol>, es: seq<Emitted>, e1: Emitted, e2: Emitted, h: MagicSymbol)
    requires Adds(m, m1, es) && PlainFixed(m, h) && e1.key.Sup? && e2.key.Input?
    ensures Adds(m, Push(Push(m1, e1), e2), es + [e1, e2])
  {
    hide Adds, Push;
    AddsKeepsPlainFixed(m, m1, es, h);
    PushAdds(m1, e1);
    AddsKeepsPlainFixed(m1, Push(m1, e1), [e1], h);
    PushAdds(Push(m1, e1), e2);
    AddsTrans(m, m1, Push(m1, e1), es, [e1]);
    AddsTrans(m, Push(m1, e1), Push(Push(m1, e1), e2), es + [e1], [e2]);
    assert es + [e1] + [e2] == es + [e1, e2];
  }

  lemma PushFinal(m: Rules<MagicSymbol>, m1: Rules<MagicSymbol>, es: seq<Emitted>, e: Emitted)
    requires Adds(m, m1, es) && PlainFixed(m1, e.key)
    ensures Adds(m, Push(m1, e), es + [e])
  {
    hide Adds, Push;
    PushAdds(m1, e);
    AddsTrans(m, m1, Push(m1, e), es, [e]);
  }

  /** What the first `k` rules of a head turn into. */
  function EmittedBy(h: MagicSymbol, rules: seq<InlineRule<MagicSymbol>>, k: nat): seq<Emitted>
    requires k <= |rules|
  {
    if k == 0 then [] else EmittedBy(h, rules, k - 1) + RewriteRule(h, k - 1, rules[k - 1])
  }

  lemma {:induction false} EmittedByIs(h: MagicSymbol, rules: seq<InlineRule<MagicSymbol>>, k: nat, e: Emitted)
    requires k <= |rules|
    ensures e in EmittedBy(h, rules, k) <==> exists i :: 0 <= i < k && e in RewriteRule(h, i, rules[i])
    decreases k
  {
    hide RewriteRule;
    if k > 0 {
      EmittedByIs(h, rules, k - 1, e);
      if e in EmittedBy(h, rules, k - 1) {
        var i :| 0 <= i < k - 1 && e in RewriteRule(h, i, rules[i]);
        assert 0 <= i < k && e in RewriteRule(h, i, rules[i]);
      }
    }
  }

  /** A supplementary relation carries the name, adornment and number of the rule it comes from. */
  lemma SupKey(h: MagicSymbol, idx: nat, r: InlineRule<MagicSymbol>, e: Emitted)
    requires (h.Muggle? || h.Magic?) && e in RewriteRule(h, idx, r) && e.key.Sup?
    ensures e.key.inner == h.inner && e.key.adornment == h.MagicAdornment() && e.key.ruleIdx == idx
  {
    hide RewriteRule, RewriteBody;
    MagicCorrect.RuleEmits(h, idx, r, e);
  }

  ghost predicate NoSups(m: Rules<MagicSymbol>, h: MagicSymbol, idx: nat) {
    forall k :: k in m && k.Sup? && k.inner == h.inner && k.adornment == h.MagicAdornment() ==> k.ruleIdx < idx
  }

  lemma RewriteKeepsNoSups(h: MagicSymbol, idx: nat, r: InlineRule<MagicSymbol>, m: Rules<MagicSymbol>, m': Rules<MagicSymbol>)
    requires (h.Muggle? || h.Magic?) && NoSups(m, h, idx) && Adds(m, m', RewriteRule(h, idx, r))
    ensures NoSups(m', h, idx + 1)
  {
    hide RewriteRule, HasRule;
    forall k | k in m' && k.Sup? && k.inner == h.inner && k.adornment == h.MagicAdornment()
      ensures k.ruleIdx < idx + 1
    {
      if k !in m {
        var e :| e in RewriteRule(h, idx, r) && e.key == k;
        SupKey(h, idx, r, e);
      }
    }
  }

  /** Rewrites all rules of the head `h` into the program. */
  method RewriteRuleset(h: MagicSymbol, rules: seq<InlineRule<MagicSymbol>>, m: Rules<MagicSymbol>) returns (out: Rules<MagicSymbol>)
    requires h.Muggle? || h.Magic?
    requires PlainFixed(m, h) && NoSups(m, h, 0)
    ensures Adds(m, out, EmittedBy(h, rules, |rules|))
  {
    hide RewriteRule, Adds, PlainFixed;
    out := m;
    AddsNone(m);
    for i := 0 to |rules|
      invariant Adds(m, out, EmittedBy(h, rules, i)) && PlainFixed(out, h) && NoSups(out, h, i)
    {
      ghost var m0 := out;
      out := RewriteOneRule(h, i, rules[i], out);
      AddsTrans(m, m0, out, EmittedBy(h, rules, i), RewriteRule(h, i, rules[i]));
      AddsKeepsPlainFixed(m0, out, RewriteRule(h, i, rules[i]), h);
      RewriteKeepsNoSups(h, i, rules[i], m0, out);
    }
  }

  ghost predicate ByDone(adorned: Rules<MagicSymbol>, done: set<MagicSymbol>, e: Emitted) {
    exists h, idx :: h in done && Emits(adorned, e, h, idx)
  }

  ghost predicate SupsOfDone(adorned: Rules<MagicSymbol>, done: set<MagicSymbol>, m: Rules<MagicSymbol>) {
    forall k :: k in m && k.Sup? ==>
      exists h :: h in done && h in adorned && h.inner == k.inner && h.MagicAdornment() == k.adornment
  }

  /** The rules of the heads in `done` have been rewritten into `m`. */
  ghost predicate Progress(adorned: Rules<MagicSymbol>, done: set<MagicSymbol>, m: Rules<MagicSymbol>) {
    && (forall k, r :: HasRule(m, k, r) <==> ByDone(adorned, done, Emitted(k, r)))
    && (forall h :: h in done && h in adorned && adorned[h].Fixed? ==> h in m && m[h] == adorned[h])
    && (forall k :: k in m && m[k].Fixed? ==> k in done && k in adorned && adorned[k] == m[k])
    && SupsOfDone(adorned, done, m)
  }

  /** Heads are plain or adorned names, never both for one rule, and fixed rules keep plain names. */
  ghost predicate HeadsOk(adorned: Rules<MagicSymbol>) {
    && (forall h :: h in adorned ==> (h.Muggle? || h.Magic?) && (adorned[h].Fixed? ==> h.Muggle?))
    && (forall g, h :: g in adorned && h in adorned && g.Muggle? && h.Magic? ==> g.inner != h.inner)
  }

  lemma ProgressFresh(adorned: Rules<MagicSymbol>, done: set<MagicSymbol>, m: Rules<MagicSymbol>, h: MagicSymbol)
    requires Progress(adorned, done, m) && HeadsOk(adorned) && h in adorned && h !in done && adorned[h].Rules?
    ensures PlainFixed(m, h) && NoSups(m, h, 0)
  {
    hide HasRule, Emits;
  }

  lemma ByDoneMore(adorned: Rules<MagicSymbol>, done: set<MagicSymbol>, h: MagicSymbol, e: Emitted)
    ensures ByDone(adorned, done + {h}, e) <==> ByDone(adorned, done, e) || exists idx :: Emits(adorned, e, h, idx)
  {
    hide Emits;
    if ByDone(adorned, done, e) {
      var g, idx: nat :| g in done && Emits(adorned, e, g, idx);
      assert g in done + {h};
    }
    if idx: nat :| Emits(adorned, e, h, idx) {
      assert h in done + {h};
    }
  }

  lemma EmitsIs(adorned: Rules<MagicSymbol>, h: MagicSymbol, e: Emitted)
    requires h in adorned && adorned[h].Rules?
    ensures e in EmittedBy(h, adorned[h].rules, |adorned[h].rules|) <==> exists idx :: Emits(adorned, e, h, idx)
  {
    hide RewriteRule;
    var rules := adorned[h].rules;
    EmittedByIs(h, rules, |rules|, e);
    if idx: nat :| Emits(adorned, e, h, idx) {
      assert 0 <= idx < |rules| && e in RewriteRule(h, idx, rules[idx]);
    }
    if i :| 0 <= i < |rules| && e in RewriteRule(h, i, rules[i]) {
      assert Emits(adorned, e, h, i);
    }
  }

  lemma SupsOfRules(adorned: Rules<MagicSymbol>, done: set<MagicSymbol>, m: Rules<MagicSymbol>, h: MagicSymbol, m': Rules<MagicSymbol>)
    requires SupsOfDone(adorned, done, m) && h in adorned && adorned[h].Rules? && (h.Muggle? || h.Magic?)
    requires Adds(m, m', EmittedBy(h, adorned[h].rules, |adorned[h].rules|))
    ensures SupsOfDone(adorned, done + {h}, m')
  {
    hide RewriteRule, HasRule;
    var rules := adorned[h].rules;
    forall k | k in m' && k.Sup?
      ensures exists g :: g in done + {h} && g in adorned && g.inner == k.inner && g.MagicAdornment() == k.adornment
    {
      if k in m {
        var g :| g in done && g in adorned && g.inner == k.inner && g.MagicAdornment() == k.adornment;
        assert g in done + {h};
      } else {
        var e :| e in EmittedBy(h, rules, |rules|) && e.key == k;
        EmittedByIs(h, rules, |rules|, e);
        var i :| 0 <= i < |rules| && e in RewriteRule(h, i, rules[i]);
        SupKey(h, i, rules[i], e);
        assert h in done + {h};
      }
    }
  }

  lemma ProgressRules(adorned: Rules<MagicSymbol>, done: set<MagicSymbol>, m: Rules<MagicSymbol>, h: MagicSymbol, m': Rules<MagicSymbol>)
    requires Progress(adorned, done, m) && HeadsOk(adorned) && h in adorned && adorned[h].Rules?
    requires Adds(m, m', EmittedBy(h, adorned[h].rules, |adorned[h].rules|))
    ensures Progress(adorned, done + {h}, m')
  {
    hide HasRule, ByDone, EmittedBy, SupsOfDone;
    SupsOfRules(adorned, done, m, h, m');
    forall k, r
      ensures HasRule(m', k, r) <==> ByDone(adorned, done + {h}, Emitted(k, r))
    {
      EmitsIs(adorned, h, Emitted(k, r));
      ByDoneMore(adorned, done, h, Emitted(k, r));
    }
  }

  /** No head but `h` itself contributes rules to `h`. */
  lemma NoRulesYet(adorned: Rules<MagicSymbol>, done: set<MagicSymbol>, h: MagicSymbol, r: InlineRule<MagicSymbol>)
    requires (h.Muggle? || h.Magic?) && h !in done
    ensures !ByDone(adorned, done, Emitted(h, r))
  {
    hide RewriteRule, RewriteBody;
    if ByDone(adorned, done, Emitted(h, r)) {
      var g, idx: nat :| g in done && Emits(adorned, Emitted(h, r), g, idx);
      MagicCorrect.RuleEmits(g, idx, adorned[g].rules[idx], Emitted(h, r));
    }
  }

  lemma ProgressFixed(adorned: Rules<MagicSymbol>, done: set<MagicSymbol>, m: Rules<MagicSymbol>, h: MagicSymbol)
    requires Progress(adorned, done, m) && HeadsOk(adorned) && h in adorned && adorned[h].Fixed? && h !in done
    ensures Progress(adorned, done + {h}, m[h := adorned[h]])
  {
    hide ByDone;
    var m' := m[h := adorned[h]];
    forall k, r
      ensures HasRule(m', k, r) <==> ByDone(adorned, done + {h}, Emitted(k, r))
    {
      ByDoneMore(adorned, done, h, Emitted(k, r));
      if k == h {
        NoRulesYet(adorned, done, h, r);
      }
    }
    forall k | k in m' && k.Sup?
      ensures exists g :: g in done + {h} && g in adorned && g.inner == k.inner && g.MagicAdornment() == k.adornment
    {
      var g :| g in done && g in adorned && g.inner == k.inner && g.MagicAdornment() == k.adornment;
      assert g in done + {h};
    }
  }

  /** Every relation that has rules has at least one. */
  ghost predicate NoEmptyRules(m: Rules<MagicSymbol>) {
    forall k :: k in m && m[k].Rules? ==> m[k].rules != []
  }

  lemma NothingEmpty()
    ensures NoEmptyRules(map[])
  {
  }

  lemma AddsNoEmpty(m: Rules<MagicSymbol>, m': Rules<MagicSymbol>, es: seq<Emitted>)
    requires Adds(m, m', es) && NoEmptyRules(m)
    ensures NoEmptyRules(m')
  {
    forall k | k in m' && m'[k].Rules?
      ensures m'[k].rules != []
    {
      if k in m {
        assert m[k].Rules?;
        assert HasRule(m, k, m[k].rules[0]);
        assert HasRule(m', k, m[k].rules[0]);
      } else {
        var e :| e in es && e.key == k;
        assert Emitted(k, e.rule) in es;
        assert HasRule(m', k, e.rule);
      }
    }
  }

  lemma FixedNoEmpty(m: Rules<MagicSymbol>, h: MagicSymbol, f: RulesOrFixed<MagicSymbol>)
    requires NoEmptyRules(m) && f.Fixed?
    ensures NoEmptyRules(m[h := f])
  {
  }

  lemma ProgressDone(adorned: Rules<MagicSymbol>, m: Rules<MagicSymbol>)
    requires Progress(adorned, adorned.Keys, m)
    ensures IsRewritten(adorned, m)
    ensures forall k :: k in m && m[k].Fixed? ==> k in adorned && adorned[k] == m[k]
  {
    hide Emits, HasRule;
    forall k, r
      ensures HasRule(m, k, r) <==> EmittedBySome(adorned, Emitted(k, r))
    {
      if h, idx: nat :| Emits(adorned, Emitted(k, r), h, idx) {
        assert h in adorned.Keys by { EmitsHead(adorned, Emitted(k, r), h, idx); }
      }
    }
  }

  lemma EmitsHead(adorned: Rules<MagicSymbol>, e: Emitted, h: MagicSymbol, idx: nat)
    requires Emits(adorned, e, h, idx)
    ensures h in adorned
  {
  }

  /** Rewrites every adorned rule; `heads` lists the heads in the order they are visited. */
  method MagicRewriteAll(adorned: Rules<MagicSymbol>, heads: seq<MagicSymbol>) returns (m: Rules<MagicSymbol>)
    requires Enumerates(heads, adorned) && HeadsOk(adorned)
    ensures IsRewritten(adorned, m)
    ensures NoEmptyRules(m) && forall k :: k in m && m[k].Fixed? ==> k in adorned && adorned[k] == m[k]
  {
    hide Progress, IsRewritten, PlainFixed, NoSups, Adds, EmittedBy, NoEmptyRules;
    NothingEmpty();
    m := map[];
    ghost var done: set<MagicSymbol> := {};
    StartProgress(adorned);
    for i := 0 to |heads|
      invariant Progress(adorned, done, m) && NoEmptyRules(m)
      invariant forall h :: h in done <==> exists k :: 0 <= k < i && heads[k] == h
    {
      var h := heads[i];
      assert h in adorned && h !in done;
      match adorned[h] {
        case Rules(rules) =>
          ProgressFresh(adorned, done, m, h);
          ghost var m0 := m;
          m := RewriteRuleset(h, rules, m);
          ProgressRules(adorned, done, m0, h, m);
          AddsNoEmpty(m0, m, EmittedBy(h, rules, |rules|));
        case Fixed(_, _) =>
          ProgressFixed(adorned, done, m, h);
          FixedNoEmpty(m, h, adorned[h]);
          m := m[h := adorned[h]];
      }
      done := done + {h};
    }
    assert done == adorned.Keys;
    ProgressDone(adorned, m);
  }

  lemma StartProgress(adorned: Rules<MagicSymbol>)
    ensures Progress(adorned, {}, map[])
  {
  }

  lemma AdornedHeadsOk(p: Rules<Symbol>, rw: set<Symbol>, adorned: Rules<MagicSymbol>)
    requires IsAdorned(p, rw, adorned)
    ensures HeadsOk(adorned)
  {
  }
}
