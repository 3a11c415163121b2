/** Time travel: a skip scan over versioned keys (data/tuple.rs, storage/mem.rs). */
module TimeTravel {
  import opened Wrappers
  import opened Values
  import opened Bytes
  import opened ValueOrder
  import opened Codec

  /** A validity that sorts after all others; no stored key carries it. */
  const TERMINAL_VALIDITY: Validity := Validity(-SIGN, false)

  /** One version of a row: its other key columns, and since when it is asserted or retracted. */
  datatype Version = Version(group: Tuple, vld: Validity)

  function VersionKey(rel: u64, ver: Version): Bytes {
    EncodeAsKey(rel, ver.group + [Vld(ver.vld)])
  }

  /** Versions of a relation with `n` key columns besides the validity. */
  ghost predicate Proper(n: nat, ver: Version) {
    |ver.group| == n && AllWellFormed(ver.group)
  }

  // ----- the order of versions -----

  lemma WithValidity(g: Tuple, v: Validity)
    requires AllWellFormed(g)
    ensures AllWellFormed(g + [Vld(v)]) && AllSized(g + [Vld(v)])
  {
    FormedWithValidity(g, v);
    WellFormedSized(g + [Vld(v)]);
  }

  lemma {:induction false} FormedWithValidity(g: Tuple, v: Validity)
    requires AllWellFormed(g)
    ensures AllWellFormed(g + [Vld(v)])
    decreases |g|
  {
    if g != [] {
      FormedWithValidity(g[1..], v);
      assert (g + [Vld(v)])[1..] == g[1..] + [Vld(v)];
    }
  }

  /** Versions sort by group, then by validity. */
  lemma {:induction false} VersionCmp(g: Tuple, v: Validity, h: Tuple, x: Validity)
    requires |g| == |h| && AllSized(g) && AllSized(h)
    ensures EncodedCmpSeq(g + [Vld(v)], h + [Vld(x)]) == if g == h then CmpValidity(v, x) else EncodedCmpSeq(g, h)
    ensures EncodedCmpSeq(g, h) == Equal <==> g == h
    decreases |g|
  {
    hide Sized, CmpValidity;
    var a, b := g + [Vld(v)], h + [Vld(x)];
    ColumnsCmp(g, h);
    if g == [] {
      assert a[1..] == [] && b[1..] == [];
      assert EncodedCmp(Vld(v), Vld(x)) == CmpValidity(v, x);
    } else {
      assert a[1..] == g[1..] + [Vld(v)] && b[1..] == h[1..] + [Vld(x)];
      VersionCmp(g[1..], v, h[1..], x);
      EncodedOrder(g[0], h[0]);
      assert g == [g[0]] + g[1..] && h == [h[0]] + h[1..];
    }
  }

  lemma KeyCmp(rel: u64, n: nat, a: Version, b: Version)
    requires Proper(n, a) && Proper(n, b)
    ensures LexLess(VersionKey(rel, a), VersionKey(rel, b)) <==>
            if a.group == b.group then CmpValidity(a.vld, b.vld) == Less else EncodedCmpSeq(a.group, b.group) == Less
    ensures VersionKey(rel, a) == VersionKey(rel, b) <==> a == b
  {
    hide EncodedCmpSeq, CmpValidity, EncodeAsKey, LexLess, AllWellFormed, AllSized;
    WithValidity(a.group, a.vld);
    WithValidity(b.group, b.vld);
    WellFormedSized(a.group);
    WellFormedSized(b.group);
    KeyOrder(rel, a.group + [Vld(a.vld)], rel, b.group + [Vld(b.vld)]);
    VersionCmp(a.group, a.vld, b.group, b.vld);
    assert (a.group + [Vld(a.vld)])[..n] == a.group && (b.group + [Vld(b.vld)])[..n] == b.group;
    assert (a.group + [Vld(a.vld)])[n] == Vld(a.vld) && (b.group + [Vld(b.vld)])[n] == Vld(b.vld);
  }

  // ----- one key -----

  /** Whether a key is in the answer, and where to look next. */
  method CheckKeyForValidity(key: Bytes, validAt: i64, ghost rel: u64, ghost n: nat, ghost ver: Version) returns (ret: Option<Tuple>, next: Bytes)
    requires Proper(n, ver) && key == VersionKey(rel, ver)
    ensures ver.vld.ts > validAt ==> ret == None && next == VersionKey(rel, Version(ver.group, Validity(validAt, true)))
    ensures ver.vld.ts <= validAt ==> next == VersionKey(rel, Version(ver.group, TERMINAL_VALIDITY))
    ensures ver.vld.ts <= validAt ==> ret == if ver.vld.isAssert then Some(ver.group + [Vld(ver.vld)]) else None
  {
    hide EncodeAsKey, DecodeTupleFromKey, ReadWord;
    WithValidity(ver.group, ver.vld);
    KeyBack(rel, ver.group + [Vld(ver.vld)]);
    var tuple := ReadKey(key);
    var decoded := tuple.value;
    assert |key| >= 8 by { KeyLong(rel, ver.group + [Vld(ver.vld)]); }
    var relId := ReadWord(key[..8]);
    var last := |decoded| - 1;
    assert decoded[..last] == ver.group;
    var vld := decoded[last].vld;
    if vld.ts > validAt {
      decoded := decoded[last := Vld(Validity(validAt, true))];
      assert decoded == ver.group + [Vld(Validity(validAt, true))];
      next := WriteKey(relId, decoded);
      ret := None;
    } else {
      ret := if vld.isAssert then Some(decoded) else None;
      decoded := decoded[last := Vld(TERMINAL_VALIDITY)];
      assert decoded == ver.group + [Vld(TERMINAL_VALIDITY)];
      next := WriteKey(relId, decoded);
    }
  }

  lemma KeyLong(rel: u64, t: Tuple)
    ensures |EncodeAsKey(rel, t)| >= 8
  {
  }

  // ----- what the scan is to find -----

  type Store = map<Bytes, Bytes>

  predicate InRange(key: Bytes, lower: Bytes, upper: Bytes) {
    !LexLess(key, lower) && LexLess(key, upper)
  }

  /** Which versions are scanned, and at what time. */
  datatype Query = Query(rel: u64, n: nat, lower: Bytes, upper: Bytes, validAt: i64)

  ghost predicate Stored(inner: Store, q: Query, ver: Version) {
    Proper(q.n, ver) && VersionKey(q.rel, ver) in inner && InRange(VersionKey(q.rel, ver), q.lower, q.upper)
  }

  ghost predicate IsVersionKey(q: Query, key: Bytes) {
    exists ver :: Proper(q.n, ver) && key == VersionKey(q.rel, ver)
  }

  /** Every key in the range is that of a version, and none has the terminal validity. */
  ghost predicate Versioned(inner: Store, q: Query) {
    && (forall key :: key in inner && InRange(key, q.lower, q.upper) ==> IsVersionKey(q, key))
    && (forall ver :: Stored(inner, q, ver) ==> ver.vld != TERMINAL_VALIDITY)
  }

  /** The newest version of its group at or before the time of the query, and an assertion; at equal times assertions win. */
  ghost predicate Answer(inner: Store, q: Query, ver: Version) {
    && Stored(inner, q, ver) && ver.vld.ts <= q.validAt && ver.vld.isAssert
    && forall v :: Stored(inner, q, Version(ver.group, v)) && v.ts <= q.validAt ==> v.ts <= ver.vld.ts
  }

  /** The range takes in all possible versions of a group or none. */
  ghost predicate WholeGroups(q: Query) {
    forall a, b :: Proper(q.n, a) && Proper(q.n, b) && a.group == b.group ==>
      (InRange(VersionKey(q.rel, a), q.lower, q.upper) <==> InRange(VersionKey(q.rel, b), q.lower, q.upper))
  }

  /** A bound cuts no group after one of its eligible versions. */
  ghost predicate Cuts(inner: Store, q: Query, bound: Bytes) {
    && !LexLess(bound, q.lower)
    && forall a, b :: (&& Stored(inner, q, a) && Stored(inner, q, b) && a.group == b.group && a.vld.ts <= q.validAt
                       && LexLess(VersionKey(q.rel, a), bound)) ==> LexLess(VersionKey(q.rel, b), bound)
  }

  lemma StartCuts(inner: Store, q: Query)
    ensures Cuts(inner, q, q.lower)
  {
    LexTotal(q.lower, q.lower);
  }

  ghost predicate Least(inner: Store, q: Query, bound: Bytes, key: Bytes) {
    && key in inner && InRange(key, q.lower, q.upper) && !LexLess(key, bound)
    && forall k :: k in inner && InRange(k, q.lower, q.upper) && !LexLess(k, bound) ==> !LexLess(k, key)
  }

  lemma NotLessTrans(a: Bytes, b: Bytes, c: Bytes)
    requires !LexLess(b, a) && !LexLess(c, b)
    ensures !LexLess(c, a)
  {
    LexTotal(a, b);
    LexTotal(b, c);
    if LexLess(c, a) {
      if a != b {
        LexTrans(c, a, b);
      }
    }
  }

  lemma LessNotLess(a: Bytes, b: Bytes, c: Bytes)
    requires (LexLess(a, b) && !LexLess(c, b)) || (!LexLess(b, a) && LexLess(b, c))
    ensures LexLess(a, c)
  {
    LexTotal(a, b);
    LexTotal(b, c);
    if LexLess(a, b) && LexLess(b, c) {
      LexTrans(a, b, c);
    }
  }

  /** Nothing between the bound and the least key above it. */
  lemma LeastSplits(inner: Store, q: Query, bound: Bytes, key: Bytes, ver: Version)
    requires Least(inner, q, bound, key) && Stored(inner, q, ver)
    ensures LexLess(VersionKey(q.rel, ver), key) <==> LexLess(VersionKey(q.rel, ver), bound)
  {
    var k := VersionKey(q.rel, ver);
    if LexLess(k, bound) {
      LessNotLess(k, bound, key);
    }
  }

  // ----- one step of the scan -----

  /** Where the scan goes on after looking at a version. */
  ghost function NextBound(q: Query, ver: Version): Bytes {
    VersionKey(q.rel, Version(ver.group, if ver.vld.ts > q.validAt then Validity(q.validAt, true) else TERMINAL_VALIDITY))
  }

  lemma NextIsLater(inner: Store, q: Query, ver: Version)
    requires Versioned(inner, q) && Stored(inner, q, ver)
    ensures LexLess(VersionKey(q.rel, ver), NextBound(q, ver))
  {
    hide VersionKey;
    var v := if ver.vld.ts > q.validAt then Validity(q.validAt, true) else TERMINAL_VALIDITY;
    KeyCmp(q.rel, q.n, ver, Version(ver.group, v));
  }

  /** The versions passed in a step are of the same group; only a version seen when eligible can be an answer. */
  lemma PassedInStep(inner: Store, q: Query, bound: Bytes, ver: Version, a: Version)
    requires Versioned(inner, q) && Cuts(inner, q, bound) && Least(inner, q, bound, VersionKey(q.rel, ver)) && Proper(q.n, ver)
    requires Stored(inner, q, a)
    ensures LexLess(VersionKey(q.rel, a), NextBound(q, ver)) <==>
      || LexLess(VersionKey(q.rel, a), bound)
      || (a.group == ver.group && (ver.vld.ts <= q.validAt || a.vld.ts > q.validAt))
  {
    hide VersionKey, Cuts, EncodedCmpSeq;
    var v := if ver.vld.ts > q.validAt then Validity(q.validAt, true) else TERMINAL_VALIDITY;
    var nb := Version(ver.group, v);
    assert Stored(inner, q, ver);
    KeyCmp(q.rel, q.n, a, nb);
    KeyCmp(q.rel, q.n, a, ver);
    KeyCmp(q.rel, q.n, ver, a);
    LeastSplits(inner, q, bound, VersionKey(q.rel, ver), a);
    if a.group != ver.group {
      WellFormedSized(a.group);
      WellFormedSized(ver.group);
      VersionCmp(a.group, a.vld, ver.group, v);
    } else if ver.vld.ts > q.validAt && a.vld.ts <= q.validAt {
      CutsAt(inner, q, bound, a, ver);
    }
  }

  lemma CutsAt(inner: Store, q: Query, bound: Bytes, a: Version, b: Version)
    requires Cuts(inner, q, bound) && Stored(inner, q, a) && Stored(inner, q, b) && a.group == b.group && a.vld.ts <= q.validAt
    ensures LexLess(VersionKey(q.rel, a), bound) ==> LexLess(VersionKey(q.rel, b), bound)
  {
  }

  lemma StepCuts(inner: Store, q: Query, bound: Bytes, ver: Version)
    requires Versioned(inner, q) && Cuts(inner, q, bound) && Least(inner, q, bound, VersionKey(q.rel, ver)) && Proper(q.n, ver)
    ensures Cuts(inner, q, NextBound(q, ver))
  {
    hide VersionKey, NextBound;
    var nb := NextBound(q, ver);
    NextIsLater(inner, q, ver);
    LexTotal(VersionKey(q.rel, ver), nb);
    assert !LexLess(nb, q.lower) by { NotLessTrans(q.lower, VersionKey(q.rel, ver), nb); }
    forall a, b | Stored(inner, q, a) && Stored(inner, q, b) && a.group == b.group && a.vld.ts <= q.validAt && LexLess(VersionKey(q.rel, a), nb)
      ensures LexLess(VersionKey(q.rel, b), nb)
    {
      PassedInStep(inner, q, bound, ver, a);
      PassedInStep(inner, q, bound, ver, b);
    }
  }

  /** A version seen when eligible is the newest of its group. */
  lemma SeenIsNewest(inner: Store, q: Query, bound: Bytes, ver: Version, a: Version)
    requires Versioned(inner, q) && Cuts(inner, q, bound) && Least(inner, q, bound, VersionKey(q.rel, ver)) && Proper(q.n, ver)
    requires Stored(inner, q, a) && a.group == ver.group && a.vld.ts <= q.validAt && ver.vld.ts <= q.validAt
    ensures a == ver || CmpValidity(ver.vld, a.vld) == Less
  {
    hide VersionKey, Cuts;
    assert Stored(inner, q, ver);
    KeyCmp(q.rel, q.n, a, ver);
    LeastSplits(inner, q, bound, VersionKey(q.rel, ver), a);
    CutsAt(inner, q, bound, a, ver);
  }

  /** What a step yields: the answers among the versions it passes. */
  lemma StepAnswers(inner: Store, q: Query, bound: Bytes, ver: Version, a: Version)
    requires Versioned(inner, q) && Cuts(inner, q, bound) && Least(inner, q, bound, VersionKey(q.rel, ver)) && Proper(q.n, ver)
    ensures Answer(inner, q, a) && !LexLess(VersionKey(q.rel, a), bound) && LexLess(VersionKey(q.rel, a), NextBound(q, ver)) <==>
            a == ver && ver.vld.ts <= q.validAt && ver.vld.isAssert
  {
    hide VersionKey, Cuts, NextBound, CmpValidity;
    assert Stored(inner, q, ver);
    if Stored(inner, q, a) {
      PassedInStep(inner, q, bound, ver, a);
      if a.group == ver.group && a.vld.ts <= q.validAt && ver.vld.ts <= q.validAt {
        SeenIsNewest(inner, q, bound, ver, a);
        if Answer(inner, q, a) {
          assert Stored(inner, q, Version(a.group, ver.vld));
          OlderLoses(ver.vld, a.vld);
        }
      }
    }
    if a == ver && ver.vld.ts <= q.validAt && ver.vld.isAssert {
      NextIsLater(inner, q, ver);
      forall v | Stored(inner, q, Version(ver.group, v)) && v.ts <= q.validAt
        ensures v.ts <= ver.vld.ts
      {
        SeenIsNewest(inner, q, bound, ver, Version(ver.group, v));
        OlderLoses(ver.vld, v);
      }
    }
  }

  lemma OlderLoses(v: Validity, x: Validity)
    ensures CmpValidity(v, x) == Less ==> x.ts < v.ts || (x.ts == v.ts && v.isAssert && !x.isAssert)
  {
  }

  // ----- where the scan seeks -----

  /** No seek of the scan goes behind the end of the range. */
  ghost predicate SeeksInside(inner: Store, q: Query) {
    && !LexLess(q.upper, q.lower)
    && forall ver :: Stored(inner, q, ver) ==> !LexLess(q.upper, NextBound(q, ver))
  }

  /** The bound is where the scan started or what it took from a version, and no version passed asked for a later one. */
  ghost predicate Reached(inner: Store, q: Query, bound: Bytes) {
    && (bound == q.lower || exists ver :: Stored(inner, q, ver) && bound == NextBound(q, ver))
    && forall a :: Stored(inner, q, a) && LexLess(VersionKey(q.rel, a), bound) ==> !LexLess(bound, NextBound(q, a))
  }

  lemma StartReached(inner: Store, q: Query)
    ensures Reached(inner, q, q.lower)
  {
    hide VersionKey, NextBound;
  }

  lemma StepReached(inner: Store, q: Query, bound: Bytes, ver: Version)
    requires Versioned(inner, q) && Cuts(inner, q, bound) && Least(inner, q, bound, VersionKey(q.rel, ver)) && Proper(q.n, ver)
    requires Reached(inner, q, bound)
    ensures Reached(inner, q, NextBound(q, ver))
  {
    hide VersionKey, NextBound, Cuts;
    var nb := NextBound(q, ver);
    assert Stored(inner, q, ver);
    NextIsLater(inner, q, ver);
    LessNotLess(bound, VersionKey(q.rel, ver), nb);
    forall a | Stored(inner, q, a) && LexLess(VersionKey(q.rel, a), nb)
      ensures !LexLess(nb, NextBound(q, a))
    {
      PassedInStep(inner, q, bound, ver, a);
      if LexLess(VersionKey(q.rel, a), bound) {
        LexTotal(bound, nb);
        NotLessTrans(NextBound(q, a), bound, nb);
        LexTotal(NextBound(q, a), nb);
      } else {
        SameGroupSeeks(q, a, ver);
      }
    }
  }

  /** Within a row, an eligible version asks for the latest bound. */
  lemma SameGroupSeeks(q: Query, a: Version, ver: Version)
    requires Proper(q.n, a) && Proper(q.n, ver) && a.group == ver.group && (ver.vld.ts <= q.validAt || a.vld.ts > q.validAt)
    ensures !LexLess(NextBound(q, ver), NextBound(q, a))
  {
    hide VersionKey;
    var x := if ver.vld.ts > q.validAt then Validity(q.validAt, true) else TERMINAL_VALIDITY;
    var y := if a.vld.ts > q.validAt then Validity(q.validAt, true) else TERMINAL_VALIDITY;
    KeyCmp(q.rel, q.n, Version(ver.group, x), Version(a.group, y));
  }

  lemma ReachedEnd(inner: Store, q: Query, bound: Bytes)
    requires Reached(inner, q, bound) && !LexLess(bound, q.lower) && !LexLess(q.upper, bound)
    requires forall k :: k in inner && InRange(k, q.lower, q.upper) ==> LexLess(k, bound)
    ensures SeeksInside(inner, q)
  {
    hide VersionKey, NextBound;
    NotLessTrans(q.lower, bound, q.upper);
    LexTotal(q.lower, q.upper);
    forall ver | Stored(inner, q, ver)
      ensures !LexLess(q.upper, NextBound(q, ver))
    {
      LexTotal(NextBound(q, ver), bound);
      NotLessTrans(NextBound(q, ver), bound, q.upper);
      LexTotal(NextBound(q, ver), q.upper);
    }
  }

  lemma ReachedOutside(inner: Store, q: Query, bound: Bytes)
    requires Reached(inner, q, bound) && LexLess(q.upper, bound)
    ensures !SeeksInside(inner, q)
  {
    hide VersionKey, NextBound;
  }

  // ----- the scan -----

  /** The first key at or above the bound, as a range over the sorted store gives it; a range that starts behind its end fails. */
  method FirstAtLeast(inner: Store, q: Query, bound: Bytes) returns (res: Result<Option<Bytes>>)
    requires !LexLess(bound, q.lower)
    ensures res.Failure? <==> LexLess(q.upper, bound)
    ensures res.Success? && res.value.Some? ==> Least(inner, q, bound, res.value.value)
    ensures res.Success? && res.value.None? ==> forall k :: k in inner && InRange(k, q.lower, q.upper) ==> LexLess(k, bound)
  {
    if LexLess(q.upper, bound) {
      return Failure;
    }
    var r: Option<Bytes> := None;
    var todo := inner.Keys;
    while todo != {}
      invariant todo <= inner.Keys
      invariant r.Some? ==> r.value in inner && InRange(r.value, q.lower, q.upper) && !LexLess(r.value, bound)
      invariant forall k :: k in inner.Keys - todo && InRange(k, q.lower, q.upper) && !LexLess(k, bound) ==> r.Some? && !LexLess(k, r.value)
    {
      var k :| k in todo;
      ghost var seen := inner.Keys - todo;
      todo := todo - {k};
      assert inner.Keys - todo == seen + {k};
      if !LexLess(k, bound) && LexLess(k, q.upper) {
        NotLessTrans(q.lower, bound, k);
        if r.None? || LexLess(k, r.value) {
          LexTotal(k, k);
          forall x | x in seen && InRange(x, q.lower, q.upper) && !LexLess(x, bound)
            ensures !LexLess(x, k)
          {
            if LexLess(x, k) { LexTrans(x, k, r.value); }
          }
          r := Some(k);
        }
      }
    }
    res := Success(r);
  }

  ghost function Left(inner: Store, bound: Bytes): set<Bytes> {
    set k | k in inner && !LexLess(k, bound)
  }

  lemma LeftShrinks(inner: Store, bound: Bytes, next: Bytes, key: Bytes)
    requires key in inner && !LexLess(key, bound) && LexLess(key, next)
    ensures Left(inner, next) < Left(inner, bound)
  {
    LexTotal(key, next);
    assert key in Left(inner, bound) && key !in Left(inner, next);
    forall k | k in Left(inner, next)
      ensures k in Left(inner, bound)
    {
      LessNotLess(bound, key, next);
      LexTotal(bound, next);
      NotLessTrans(bound, next, k);
    }
  }

  /** The row that a version stands for: its key columns and the stored rest. */
  function RowOf(inner: Store, q: Query, ver: Version): (Tuple, Bytes) {
    var key := VersionKey(q.rel, ver);
    (ver.group + [Vld(ver.vld)], if key in inner then inner[key] else [])
  }

  class SkipIterator {
    const inner: Store
    const q: Query
    var nextBound: Bytes

    ghost predicate Valid()
      reads this
    {
      Versioned(inner, q) && Cuts(inner, q, nextBound) && Reached(inner, q, nextBound)
    }

    constructor (inner: Store, q: Query)
      requires Versioned(inner, q)
      ensures Valid() && this.inner == inner && this.q == q && nextBound == q.lower
    {
      this.inner, this.q, nextBound := inner, q, q.lower;
      new;
      StartCuts(inner, q);
      StartReached(inner, q);
    }

    /** The next answer, if there is one; everything before the new bound has been dealt with. Fails if a seek goes behind the end. */
    method Next() returns (res: Result<Option<(Tuple, Bytes)>>, ghost found: Version)
      requires Valid()
      modifies this`nextBound
      ensures Valid()
      ensures res.Failure? ==> !SeeksInside(inner, q)
      ensures res.Success? && res.value.None? ==> SeeksInside(inner, q)
      ensures res.Success? && res.value.None? ==> forall a :: Answer(inner, q, a) ==> LexLess(VersionKey(q.rel, a), old(nextBound))
      ensures res.Success? && res.value.Some? ==>
        && Answer(inner, q, found) && res.value.value == RowOf(inner, q, found)
        && Left(inner, nextBound) < Left(inner, old(nextBound))
        && !LexLess(VersionKey(q.rel, found), old(nextBound))
        && forall a :: Answer(inner, q, a) ==>
             (LexLess(VersionKey(q.rel, a), nextBound) <==> LexLess(VersionKey(q.rel, a), old(nextBound)) || a == found)
    {
      hide Answer, Versioned, Cuts, Reached, SeeksInside, Least, Proper, RowOf;
      found := Version([], TERMINAL_VALIDITY);
      while true
        invariant Valid() && Left(inner, nextBound) <= Left(inner, old(nextBound))
        invariant forall a :: Answer(inner, q, a) ==> (LexLess(VersionKey(q.rel, a), nextBound) <==> LexLess(VersionKey(q.rel, a), old(nextBound)))
        decreases Left(inner, nextBound)
      {
        CutsAbove(inner, q, nextBound);
        var candidate := FirstAtLeast(inner, q, nextBound);
        if candidate.Failure? {
          ReachedOutside(inner, q, nextBound);
          return Failure, found;
        }
        if candidate.value.None? {
          ReachedEnd(inner, q, nextBound);
          forall a | Answer(inner, q, a)
            ensures LexLess(VersionKey(q.rel, a), old(nextBound))
          {
            AnswerStored(inner, q, a);
          }
          return Success(None), found;
        }
        var key := candidate.value.value;
        ghost var ver := VersionAt(inner, q, nextBound, key);
        var ret, next := CheckKeyForValidity(key, q.validAt, q.rel, q.n, ver);
        ghost var bound := nextBound;
        assert next == NextBound(q, ver);
        StepCuts(inner, q, bound, ver);
        StepReached(inner, q, bound, ver);
        NextIsLater(inner, q, ver);
        LeastFacts(inner, q, bound, key);
        LeftShrinks(inner, bound, next, key);
        nextBound := next;
        forall a | Answer(inner, q, a)
          ensures LexLess(VersionKey(q.rel, a), next) <==> LexLess(VersionKey(q.rel, a), bound) || (a == ver && ret.Some?)
        {
          StepAnswers(inner, q, bound, ver, a);
          PassedStays(inner, q, bound, ver, a);
        }
        if ret.Some? {
          StepAnswers(inner, q, bound, ver, ver);
          found := ver;
          res := Success(Some((ret.value, inner[key])));
          assert res.value.value == RowOf(inner, q, found) by { RowAt(inner, q, ver, key); }
          return;
        }
      }
    }
  }

  lemma RowAt(inner: Store, q: Query, ver: Version, key: Bytes)
    requires key == VersionKey(q.rel, ver) && key in inner
    ensures RowOf(inner, q, ver) == (ver.group + [Vld(ver.vld)], inner[key])
  {
  }

  lemma CutsAbove(inner: Store, q: Query, bound: Bytes)
    requires Cuts(inner, q, bound)
    ensures !LexLess(bound, q.lower)
  {
  }

  lemma AnswerStored(inner: Store, q: Query, a: Version)
    requires Answer(inner, q, a)
    ensures VersionKey(q.rel, a) in inner && InRange(VersionKey(q.rel, a), q.lower, q.upper)
  {
  }

  lemma LeastFacts(inner: Store, q: Query, bound: Bytes, key: Bytes)
    requires Least(inner, q, bound, key)
    ensures key in inner && !LexLess(key, bound)
  {
  }

  lemma VersionAt(inner: Store, q: Query, bound: Bytes, key: Bytes) returns (ver: Version)
    requires Versioned(inner, q) && Least(inner, q, bound, key)
    ensures Proper(q.n, ver) && key == VersionKey(q.rel, ver) && Stored(inner, q, ver)
  {
    assert IsVersionKey(q, key);
    ver :| Proper(q.n, ver) && key == VersionKey(q.rel, ver);
  }

  /** What was passed stays passed. */
  lemma PassedStays(inner: Store, q: Query, bound: Bytes, ver: Version, a: Version)
    requires Versioned(inner, q) && Cuts(inner, q, bound) && Least(inner, q, bound, VersionKey(q.rel, ver)) && Proper(q.n, ver)
    requires Answer(inner, q, a)
    ensures LexLess(VersionKey(q.rel, a), bound) ==> LexLess(VersionKey(q.rel, a), NextBound(q, ver))
  {
    PassedInStep(inner, q, bound, ver, a);
  }

  /** The rows are the answers, all of them and in key order. */
  ghost predicate Yields(inner: Store, q: Query, rows: seq<(Tuple, Bytes)>, vers: seq<Version>) {
    && |rows| == |vers|
    && (forall i :: 0 <= i < |vers| ==> Answer(inner, q, vers[i]) && rows[i] == RowOf(inner, q, vers[i]))
    && (forall i, j :: 0 <= i < j < |vers| ==> LexLess(VersionKey(q.rel, vers[i]), VersionKey(q.rel, vers[j])))
  }

  /** The scan succeeds exactly if no seek goes behind the end of the range, and then its rows are exactly the answers, in key order. */
  method Scan(inner: Store, q: Query) returns (res: Result<seq<(Tuple, Bytes)>>, ghost vers: seq<Version>)
    requires Versioned(inner, q)
    ensures res.Success? <==> SeeksInside(inner, q)
    ensures res.Success? ==> Yields(inner, q, res.value, vers) && forall a :: Answer(inner, q, a) ==> a in vers
  {
    hide Answer, Versioned, RowOf, Cuts, Reached, SeeksInside;
    var it := new SkipIterator(inner, q);
    var rows: seq<(Tuple, Bytes)> := [];
    vers := [];
    StartFresh(inner, q);
    while true
      invariant it.Valid() && it.inner == inner && it.q == q && Yields(inner, q, rows, vers)
      invariant forall i :: 0 <= i < |vers| ==> LexLess(VersionKey(q.rel, vers[i]), it.nextBound)
      invariant forall a :: Answer(inner, q, a) && LexLess(VersionKey(q.rel, a), it.nextBound) ==> a in vers
      decreases Left(inner, it.nextBound)
    {
      ghost var bound := it.nextBound;
      ghost var found;
      var r;
      r, found := it.Next();
      if r.Failure? {
        return Failure, vers;
      }
      if r.value.None? {
        return Success(rows), vers;
      }
      forall i | 0 <= i < |vers|
        ensures LexLess(VersionKey(q.rel, vers[i]), VersionKey(q.rel, found))
      {
        LessNotLess(VersionKey(q.rel, vers[i]), bound, VersionKey(q.rel, found));
      }
      rows, vers := rows + [r.value.value], vers + [found];
    }
  }

  lemma StartFresh(inner: Store, q: Query)
    ensures forall a :: Answer(inner, q, a) ==> !LexLess(VersionKey(q.rel, a), q.lower)
  {
  }

  // ----- ranges do not matter as long as they keep groups whole -----

  /** The newest version of its group in the whole store. */
  ghost predicate Current(inner: Store, q: Query, ver: Version) {
    && Proper(q.n, ver) && VersionKey(q.rel, ver) in inner && ver.vld.ts <= q.validAt && ver.vld.isAssert
    && forall v :: VersionKey(q.rel, Version(ver.group, v)) in inner && v.ts <= q.validAt ==> v.ts <= ver.vld.ts
  }

  lemma WholeAnswers(inner: Store, q: Query, ver: Version)
    requires WholeGroups(q)
    ensures Answer(inner, q, ver) <==> Current(inner, q, ver) && InRange(VersionKey(q.rel, ver), q.lower, q.upper)
  {
    hide VersionKey, InRange;
    if Proper(q.n, ver) {
      forall v
        ensures Proper(q.n, Version(ver.group, v))
      {
      }
    }
  }

  /** The scan never seeks past the end of such a range. */
  lemma SeekStaysInRange(q: Query, ver: Version)
    requires WholeGroups(q) && Proper(q.n, ver) && InRange(VersionKey(q.rel, ver), q.lower, q.upper)
    ensures InRange(NextBound(q, ver), q.lower, q.upper)
  {
    hide VersionKey, InRange;
    var v := if ver.vld.ts > q.validAt then Validity(q.validAt, true) else TERMINAL_VALIDITY;
    assert Proper(q.n, Version(ver.group, v));
  }

  /** Nor does it fail, if the range is none that starts behind its end. */
  lemma WholeSeeksInside(inner: Store, q: Query)
    requires WholeGroups(q)
    ensures SeeksInside(inner, q) <==> !LexLess(q.upper, q.lower)
  {
    hide WholeGroups, NextBound;
    if !LexLess(q.upper, q.lower) {
      forall ver | Stored(inner, q, ver)
        ensures !LexLess(q.upper, NextBound(q, ver))
      {
        SeekStaysInRange(q, ver);
        LexTotal(NextBound(q, ver), q.upper);
      }
    }
  }

  // ----- ranges given by columns -----

  /** The validity that sorts before all others. */
  const FIRST_VALIDITY: Validity := Validity(SIGN - 1, true)

  /** A range from a tuple of columns to another one, inclusive; either may go as far as the validity. */
  ghost predicate ByColumns(q: Query, lower: Tuple, upper: Tuple) {
    && |lower| <= q.n + 1 && |upper| <= q.n + 1 && AllWellFormed(lower) && AllWellFormed(upper)
    && q.lower == EncodeAsKey(q.rel, lower) && q.upper == EncodeAsKey(q.rel, upper + [Bot])
  }

  /** The lower bound asks for a validity that has others before it. */
  ghost predicate SplitsLow(n: nat, lower: Tuple) {
    |lower| == n + 1 && lower[n].Vld? && lower[n].vld != FIRST_VALIDITY
  }

  /** The upper bound asks for a validity that has others after it. */
  ghost predicate SplitsHigh(n: nat, upper: Tuple) {
    |upper| == n + 1 && upper[n].Vld? && upper[n].vld != TERMINAL_VALIDITY
  }

  lemma ColumnDecides(c: DataValue, v: Validity, x: Validity)
    ensures (c.Vld? ==> c.vld == FIRST_VALIDITY) && EncodedCmp(c, Vld(v)) == Greater ==> EncodedCmp(c, Vld(x)) == Greater
    ensures (c.Vld? ==> c.vld == TERMINAL_VALIDITY) && EncodedCmp(Vld(v), c) != Greater ==> EncodedCmp(Vld(x), c) != Greater
  {
  }

  lemma {:induction false} LowerDecides(p: Tuple, g: Tuple, v: Validity, x: Validity)
    requires |p| <= |g| + 1 && !SplitsLow(|g|, p)
    ensures EncodedCmpSeq(p, g + [Vld(v)]) == Greater ==> EncodedCmpSeq(p, g + [Vld(x)]) == Greater
    decreases |p|
  {
    var a, b := g + [Vld(v)], g + [Vld(x)];
    if g == [] {
      if p != [] {
        assert a == [Vld(v)] && b == [Vld(x)] && p[1..] == [] && a[1..] == [] && b[1..] == [];
        assert EncodedCmpSeq(p[1..], a[1..]) == Equal && EncodedCmpSeq(p[1..], b[1..]) == Equal;
        ColumnDecides(p[0], v, x);
      }
    } else if p != [] {
      assert a[1..] == g[1..] + [Vld(v)] && b[1..] == g[1..] + [Vld(x)];
      LowerDecides(p[1..], g[1..], v, x);
    }
  }

  lemma {:induction false} UpperDecides(p: Tuple, g: Tuple, v: Validity, x: Validity)
    requires |p| <= |g| + 1 && !SplitsHigh(|g|, p)
    ensures EncodedCmpSeq(g + [Vld(v)], p + [Bot]) == Less ==> EncodedCmpSeq(g + [Vld(x)], p + [Bot]) == Less
    decreases |p|
  {
    var a, b, c := g + [Vld(v)], g + [Vld(x)], p + [Bot];
    if p == [] {
      if g != [] {
        assert a[0] == b[0] == g[0] && a[1..] != [] && b[1..] != [] && c[1..] == [];
        assert EncodedCmpSeq(a[1..], c[1..]) == Greater && EncodedCmpSeq(b[1..], c[1..]) == Greater;
      }
    } else if g == [] {
      assert a == [Vld(v)] && b == [Vld(x)] && c[0] == p[0] && a[1..] == [] && b[1..] == [] && c[1..] == [Bot];
      ColumnDecides(p[0], v, x);
    } else {
      assert a[1..] == g[1..] + [Vld(v)] && b[1..] == g[1..] + [Vld(x)] && c[1..] == p[1..] + [Bot];
      UpperDecides(p[1..], g[1..], v, x);
    }
  }

  /** Bounds that split no row keep rows whole. */
  lemma UnsplitWhole(q: Query, lower: Tuple, upper: Tuple)
    requires ByColumns(q, lower, upper) && !SplitsLow(q.n, lower) && !SplitsHigh(q.n, upper)
    ensures WholeGroups(q)
  {
    hide EncodedCmpSeq, EncodeAsKey, LexLess, SplitsLow, SplitsHigh, AllWellFormed;
    forall a, b | Proper(q.n, a) && Proper(q.n, b) && a.group == b.group && InRange(VersionKey(q.rel, a), q.lower, q.upper)
      ensures InRange(VersionKey(q.rel, b), q.lower, q.upper)
    {
      AgainstBounds(q, lower, upper, a);
      AgainstBounds(q, lower, upper, b);
      LowerDecides(lower, a.group, b.vld, a.vld);
      UpperDecides(upper, a.group, a.vld, b.vld);
    }
  }

  lemma AgainstBounds(q: Query, lower: Tuple, upper: Tuple, a: Version)
    requires ByColumns(q, lower, upper) && Proper(q.n, a)
    ensures InRange(VersionKey(q.rel, a), q.lower, q.upper) <==>
            EncodedCmpSeq(lower, a.group + [Vld(a.vld)]) != Greater && EncodedCmpSeq(a.group + [Vld(a.vld)], upper + [Bot]) == Less
  {
    hide EncodedCmpSeq, EncodeAsKey, LexLess, AllWellFormed, AllSized;
    var s := a.group + [Vld(a.vld)];
    WithValidity(a.group, a.vld);
    WellFormedSized(lower);
    FormedWithBot(upper);
    WellFormedSized(upper + [Bot]);
    SameRelation(q.rel, lower, s);
    SameRelation(q.rel, s, upper + [Bot]);
  }

  lemma {:induction false} FormedWithBot(g: Tuple)
    requires AllWellFormed(g)
    ensures AllWellFormed(g + [Bot])
    decreases |g|
  {
    if g != [] {
      FormedWithBot(g[1..]);
      assert (g + [Bot])[1..] == g[1..] + [Bot];
    }
  }

  lemma {:induction false} FormedFront(g: Tuple, n: nat)
    requires AllWellFormed(g) && n <= |g|
    ensures AllWellFormed(g[..n])
    decreases n
  {
    if n > 0 {
      FormedFront(g[1..], n - 1);
      assert g[..n][1..] == g[1..][..n - 1] && g[..n][0] == g[0];
    }
  }

  lemma {:induction false} LongerStillLess(a: Tuple, b: Tuple, c: DataValue)
    requires EncodedCmpSeq(a, b) == Less && |b| <= |a|
    ensures EncodedCmpSeq(a + [c], b) == Less
    decreases |a|
  {
    hide EncodedCmp;
    assert (a + [c])[0] == a[0] && (a + [c])[1..] == a[1..] + [c];
    if EncodedCmp(a[0], b[0]) == Equal {
      LongerStillLess(a[1..], b[1..], c);
    }
  }

  /** The row a lower bound splits has a version in the range and one before it. */
  lemma LowSplit(q: Query, lower: Tuple, upper: Tuple)
    requires ByColumns(q, lower, upper) && SplitsLow(q.n, lower) && LexLess(q.lower, q.upper)
    ensures !WholeGroups(q)
  {
    hide EncodedCmpSeq, EncodeAsKey, LexLess, AllWellFormed;
    var g, w := lower[..q.n], lower[q.n].vld;
    FormedFront(lower, q.n);
    var a, b := Version(g, w), Version(g, FIRST_VALIDITY);
    assert g + [Vld(w)] == lower;
    LexTotal(q.lower, q.lower);
    assert InRange(VersionKey(q.rel, a), q.lower, q.upper);
    KeyCmp(q.rel, q.n, b, a);
    assert !InRange(VersionKey(q.rel, b), q.lower, q.upper);
  }

  /** The row an upper bound splits has a version in the range and one after it. */
  lemma HighSplit(q: Query, lower: Tuple, upper: Tuple)
    requires ByColumns(q, lower, upper) && SplitsHigh(q.n, upper) && LexLess(q.lower, q.upper)
    ensures !WholeGroups(q)
  {
    hide EncodedCmpSeq, EncodeAsKey, LexLess, AllWellFormed, AllSized;
    var g, w := upper[..q.n], upper[q.n].vld;
    FormedFront(upper, q.n);
    var a, b := Version(g, w), Version(g, TERMINAL_VALIDITY);
    assert g + [Vld(w)] == upper;
    UpperInRange(q, lower, upper, a);
    AgainstBounds(q, lower, upper, b);
    WellFormedSized(g);
    LastIsBehind(g, w);
  }

  lemma {:induction false} BelowWithBot(a: Tuple)
    requires AllSized(a)
    ensures EncodedCmpSeq(a, a + [Bot]) == Less
    decreases |a|
  {
    hide EncodedCmp;
    if a != [] {
      assert (a + [Bot])[0] == a[0] && (a + [Bot])[1..] == a[1..] + [Bot];
      EncodedOrder(a[0], a[0]);
      BelowWithBot(a[1..]);
    }
  }

  lemma {:induction false} LastIsBehind(g: Tuple, w: Validity)
    requires w != TERMINAL_VALIDITY && AllSized(g)
    ensures EncodedCmpSeq(g + [Vld(TERMINAL_VALIDITY)], g + [Vld(w)] + [Bot]) != Less
    decreases |g|
  {
    var a, b := g + [Vld(TERMINAL_VALIDITY)], g + [Vld(w)] + [Bot];
    if g != [] {
      assert a[1..] == g[1..] + [Vld(TERMINAL_VALIDITY)] && b[1..] == g[1..] + [Vld(w)] + [Bot] && a[0] == b[0] == g[0];
      EncodedOrder(g[0], g[0]);
      LastIsBehind(g[1..], w);
    } else {
      assert a[0] == Vld(TERMINAL_VALIDITY) && b[0] == Vld(w);
    }
  }

  /** The bounds of prefix scans and of bounded prefix scans keep rows whole exactly if the range is empty or they ask for no
      validity but, from below, the first one, and from above, the last one. */
  lemma BoundedRangeWholeIff(q: Query, lower: Tuple, upper: Tuple)
    requires ByColumns(q, lower, upper)
    ensures WholeGroups(q) <==> !LexLess(q.lower, q.upper) || (!SplitsLow(q.n, lower) && !SplitsHigh(q.n, upper))
  {
    hide WholeGroups, ByColumns, SplitsLow, SplitsHigh;
    if !LexLess(q.lower, q.upper) {
      EmptyRangeWhole(q);
    } else if SplitsLow(q.n, lower) {
      LowSplit(q, lower, upper);
    } else if SplitsHigh(q.n, upper) {
      HighSplit(q, lower, upper);
    } else {
      UnsplitWhole(q, lower, upper);
    }
  }

  lemma EmptyRangeWhole(q: Query)
    requires !LexLess(q.lower, q.upper)
    ensures WholeGroups(q)
  {
    hide VersionKey, LexLess;
    forall k: Bytes
      ensures !InRange(k, q.lower, q.upper)
    {
      if InRange(k, q.lower, q.upper) {
        LessNotLess(q.lower, k, q.upper);
      }
    }
  }

  /** A prefix scan that fixes the validity as well fails exactly if it finds something, unless that is the terminal validity. */
  lemma PinnedVersionFails(inner: Store, q: Query, ver: Version)
    requires Proper(q.n, ver) && ver.vld != TERMINAL_VALIDITY
    requires var columns := ver.group + [Vld(ver.vld)]; ByColumns(q, columns, columns)
    ensures SeeksInside(inner, q) <==> VersionKey(q.rel, ver) !in inner
  {
    hide EncodedCmpSeq, EncodeAsKey, LexLess, AllWellFormed, AllSized;
    var columns := ver.group + [Vld(ver.vld)];
    WithValidity(ver.group, ver.vld);
    FormedWithBot(columns);
    WellFormedSized(columns + [Bot]);
    BelowWithBot(columns);
    SameRelation(q.rel, columns, columns + [Bot]);
    LexTotal(q.lower, q.upper);
    PinnedSeek(q, ver);
    if VersionKey(q.rel, ver) in inner {
      LexTotal(q.lower, q.lower);
      assert Stored(inner, q, ver);
    } else {
      forall a | Stored(inner, q, a)
        ensures a == ver
      {
        OnlyPinned(q, ver, a);
      }
    }
  }

  lemma PinnedSeek(q: Query, ver: Version)
    requires Proper(q.n, ver) && ver.vld != TERMINAL_VALIDITY
    requires q.upper == EncodeAsKey(q.rel, ver.group + [Vld(ver.vld)] + [Bot])
    ensures LexLess(q.upper, NextBound(q, ver))
  {
    hide EncodedCmpSeq, EncodeAsKey, LexLess, AllWellFormed, AllSized;
    var x := if ver.vld.ts > q.validAt then Validity(q.validAt, true) else TERMINAL_VALIDITY;
    var columns, next := ver.group + [Vld(ver.vld)], ver.group + [Vld(x)];
    WithValidity(ver.group, ver.vld);
    WithValidity(ver.group, x);
    FormedWithBot(columns);
    WellFormedSized(columns + [Bot]);
    WellFormedSized(ver.group);
    VersionCmp(ver.group, ver.vld, ver.group, x);
    LongerStillLess(columns, next, Bot);
    SameRelation(q.rel, columns + [Bot], next);
  }

  lemma OnlyPinned(q: Query, ver: Version, a: Version)
    requires Proper(q.n, ver) && Proper(q.n, a) && InRange(VersionKey(q.rel, a), q.lower, q.upper)
    requires var columns := ver.group + [Vld(ver.vld)]; ByColumns(q, columns, columns)
    ensures a == ver
  {
    hide EncodedCmpSeq, EncodeAsKey, LexLess, AllWellFormed, AllSized;
    var columns, s := ver.group + [Vld(ver.vld)], a.group + [Vld(a.vld)];
    AgainstBounds(q, columns, columns, a);
    WithValidity(ver.group, ver.vld);
    WithValidity(a.group, a.vld);
    FormedWithBot(columns);
    WellFormedSized(columns + [Bot]);
    SameRelation(q.rel, columns, s);
    SameRelation(q.rel, columns + [Bot], s);
    SameRelation(q.rel, s, columns + [Bot]);
    if EncodedCmpSeq(columns, s) == Less {
      LongerStillLess(columns, s, Bot);
      LexTotal(EncodeAsKey(q.rel, s), EncodeAsKey(q.rel, columns + [Bot]));
    }
    LexTotal(EncodeAsKey(q.rel, columns), EncodeAsKey(q.rel, s));
    assert s == columns;
    assert s[..q.n] == a.group && columns[..q.n] == ver.group && s[q.n] == Vld(a.vld) && columns[q.n] == Vld(ver.vld);
  }

  // ----- exactly which ranges answer with the current versions -----

  /** Whatever is stored, the scan succeeds and answers with the current versions in the range. */
  ghost predicate AnswersCurrent(q: Query) {
    forall inner :: Versioned(inner, q) ==>
      SeeksInside(inner, q) && forall ver :: Answer(inner, q, ver) <==> Current(inner, q, ver) && InRange(VersionKey(q.rel, ver), q.lower, q.upper)
  }

  /** A range that starts at this validity leaves out versions that count, and may take in others that do. */
  ghost predicate HidesNewer(q: Query, w: Validity) {
    CmpValidity(Validity(q.validAt, true), w) == Less && w != TERMINAL_VALIDITY
  }

  /** The upper bound cuts no row, and the lower one at most before all versions that count, or behind all that there are. */
  ghost predicate CutsHarmlessly(q: Query, lower: Tuple, upper: Tuple) {
    !SplitsHigh(q.n, upper) && (SplitsLow(q.n, lower) ==> !HidesNewer(q, lower[q.n].vld))
  }

  /** All versions of a row are below the upper end, if one is. */
  lemma AllBelowUpper(q: Query, lower: Tuple, upper: Tuple, a: Version, b: Version)
    requires ByColumns(q, lower, upper) && !SplitsHigh(q.n, upper) && Proper(q.n, a) && Proper(q.n, b) && a.group == b.group
    requires LexLess(VersionKey(q.rel, a), q.upper)
    ensures LexLess(VersionKey(q.rel, b), q.upper)
  {
    hide EncodedCmpSeq, EncodeAsKey, LexLess, SplitsHigh, AllWellFormed, AllSized;
    WithValidity(a.group, a.vld);
    WithValidity(b.group, b.vld);
    FormedWithBot(upper);
    WellFormedSized(upper + [Bot]);
    SameRelation(q.rel, a.group + [Vld(a.vld)], upper + [Bot]);
    SameRelation(q.rel, b.group + [Vld(b.vld)], upper + [Bot]);
    UpperDecides(upper, a.group, a.vld, b.vld);
  }

  /** A lower bound that splits a row is the key of a version. */
  lemma LowerIsVersion(q: Query, lower: Tuple, upper: Tuple) returns (low: Version)
    requires ByColumns(q, lower, upper) && SplitsLow(q.n, lower)
    ensures low == Version(lower[..q.n], lower[q.n].vld) && Proper(q.n, low) && q.lower == VersionKey(q.rel, low)
  {
    hide EncodeAsKey, AllWellFormed;
    FormedFront(lower, q.n);
    low := Version(lower[..q.n], lower[q.n].vld);
    assert lower == low.group + [Vld(low.vld)];
  }

  /** Of a row with a version in a harmless range, every version that counts is in it. */
  lemma EligibleInRange(inner: Store, q: Query, lower: Tuple, upper: Tuple, ver: Version, v: Validity)
    requires ByColumns(q, lower, upper) && CutsHarmlessly(q, lower, upper) && Versioned(inner, q) && Stored(inner, q, ver)
    requires v.ts <= q.validAt
    ensures InRange(VersionKey(q.rel, Version(ver.group, v)), q.lower, q.upper)
  {
    hide VersionKey, ByColumns, LexLess, SplitsHigh, AllWellFormed, EncodedCmpSeq;
    var b := Version(ver.group, v);
    AllBelowUpper(q, lower, upper, ver, b);
    if SplitsLow(q.n, lower) {
      var low := LowerIsVersion(q, lower, upper);
      KeyCmp(q.rel, q.n, b, low);
      KeyCmp(q.rel, q.n, ver, low);
      assert ver.vld != TERMINAL_VALIDITY;
    } else {
      LowerTakesAll(q, lower, upper, ver, b);
    }
  }

  lemma LowerTakesAll(q: Query, lower: Tuple, upper: Tuple, a: Version, b: Version)
    requires ByColumns(q, lower, upper) && !SplitsLow(q.n, lower) && Proper(q.n, a) && Proper(q.n, b) && a.group == b.group
    requires !LexLess(VersionKey(q.rel, a), q.lower)
    ensures !LexLess(VersionKey(q.rel, b), q.lower)
  {
    hide EncodedCmpSeq, EncodeAsKey, LexLess, SplitsLow, AllWellFormed, AllSized;
    WithValidity(a.group, a.vld);
    WithValidity(b.group, b.vld);
    WellFormedSized(lower);
    SameRelation(q.rel, lower, a.group + [Vld(a.vld)]);
    SameRelation(q.rel, lower, b.group + [Vld(b.vld)]);
    LowerDecides(lower, a.group, b.vld, a.vld);
  }

  lemma HarmlessAnswers(inner: Store, q: Query, lower: Tuple, upper: Tuple, ver: Version)
    requires ByColumns(q, lower, upper) && CutsHarmlessly(q, lower, upper) && Versioned(inner, q)
    ensures Answer(inner, q, ver) <==> Current(inner, q, ver) && InRange(VersionKey(q.rel, ver), q.lower, q.upper)
  {
    hide VersionKey, InRange, ByColumns, CutsHarmlessly, AllWellFormed, Versioned;
    if Stored(inner, q, ver) {
      forall v | VersionKey(q.rel, Version(ver.group, v)) in inner && v.ts <= q.validAt
        ensures Stored(inner, q, Version(ver.group, v))
      {
        EligibleInRange(inner, q, lower, upper, ver, v);
      }
    }
  }

  lemma HarmlessSeeks(inner: Store, q: Query, lower: Tuple, upper: Tuple)
    requires ByColumns(q, lower, upper) && !SplitsHigh(q.n, upper) && !LexLess(q.upper, q.lower)
    ensures SeeksInside(inner, q)
  {
    hide VersionKey, ByColumns, SplitsHigh, AllWellFormed, LexLess;
    forall ver | Stored(inner, q, ver)
      ensures !LexLess(q.upper, NextBound(q, ver))
    {
      var v := if ver.vld.ts > q.validAt then Validity(q.validAt, true) else TERMINAL_VALIDITY;
      AllBelowUpper(q, lower, upper, ver, Version(ver.group, v));
      LexTotal(NextBound(q, ver), q.upper);
    }
  }

  lemma EmptyRangeAnswers(q: Query)
    requires q.lower == q.upper
    ensures AnswersCurrent(q)
  {
    hide VersionKey, NextBound, LexLess;
    LexTotal(q.lower, q.upper);
    forall k: Bytes
      ensures !InRange(k, q.lower, q.upper)
    {
    }
  }

  /** A row split by the upper bound: a seek behind the version there goes too far. */
  lemma HighSplitFails(q: Query, lower: Tuple, upper: Tuple)
    requires ByColumns(q, lower, upper) && SplitsHigh(q.n, upper) && LexLess(q.lower, q.upper)
    ensures !AnswersCurrent(q)
  {
    hide EncodedCmpSeq, EncodeAsKey, LexLess, AllWellFormed, NextBound;
    var a := Version(upper[..q.n], upper[q.n].vld);
    FormedFront(upper, q.n);
    assert a.group + [Vld(a.vld)] == upper;
    UpperInRange(q, lower, upper, a);
    PinnedSeek(q, a);
    var inner: Store := map[VersionKey(q.rel, a) := []];
    OneVersioned(inner, q, a);
    assert Stored(inner, q, a);
  }

  lemma OneVersioned(inner: Store, q: Query, a: Version)
    requires Proper(q.n, a) && a.vld != TERMINAL_VALIDITY && inner.Keys == {VersionKey(q.rel, a)}
    ensures Versioned(inner, q)
  {
    hide VersionKey, InRange, EncodedCmpSeq, LexLess, AllWellFormed;
    forall ver | Stored(inner, q, ver)
      ensures ver == a
    {
      KeyCmp(q.rel, q.n, ver, a);
    }
  }

  lemma UpperInRange(q: Query, lower: Tuple, upper: Tuple, a: Version)
    requires ByColumns(q, lower, upper) && LexLess(q.lower, q.upper) && Proper(q.n, a) && a.group + [Vld(a.vld)] == upper
    ensures InRange(VersionKey(q.rel, a), q.lower, q.upper)
  {
    hide EncodedCmpSeq, EncodeAsKey, LexLess, AllWellFormed, AllSized;
    AgainstBounds(q, lower, upper, a);
    WellFormedSized(lower);
    WellFormedSized(upper);
    FormedWithBot(upper);
    WellFormedSized(upper + [Bot]);
    SameRelation(q.rel, lower, upper + [Bot]);
    SameRelation(q.rel, lower, upper);
    SameRelation(q.rel, upper, lower);
    SameRelation(q.rel, upper + [Bot], lower);
    LexTotal(EncodeAsKey(q.rel, lower), EncodeAsKey(q.rel, upper));
    LexTotal(EncodeAsKey(q.rel, lower), EncodeAsKey(q.rel, upper + [Bot]));
    if EncodedCmpSeq(upper, lower) == Less {
      LongerStillLess(upper, lower, Bot);
    }
    BelowWithBot(upper);
  }

  /** A row split by the lower bound behind a version that counts: an older one in the range answers in its place. */
  lemma LowSplitStale(q: Query, lower: Tuple, upper: Tuple)
    requires ByColumns(q, lower, upper) && SplitsLow(q.n, lower) && HidesNewer(q, lower[q.n].vld)
    requires !SplitsHigh(q.n, upper) && LexLess(q.lower, q.upper)
    ensures !AnswersCurrent(q)
  {
    hide VersionKey, LexLess, AllWellFormed, EncodedCmpSeq, ByColumns, SplitsHigh;
    var low := LowerIsVersion(q, lower, upper);
    var x := if low.vld.isAssert then low.vld else Validity(low.vld.ts - 1, true);
    var fresher, stale := Version(low.group, Validity(q.validAt, true)), Version(low.group, x);
    KeyCmp(q.rel, q.n, fresher, low);
    KeyCmp(q.rel, q.n, stale, low);
    KeyCmp(q.rel, q.n, fresher, stale);
    AllBelowUpper(q, lower, upper, low, stale);
    var inner: Store := map[VersionKey(q.rel, fresher) := [], VersionKey(q.rel, stale) := []];
    forall ver | Stored(inner, q, ver)
      ensures ver == stale
    {
      KeyCmp(q.rel, q.n, ver, fresher);
      KeyCmp(q.rel, q.n, ver, stale);
    }
    assert IsVersionKey(q, VersionKey(q.rel, stale));
    assert Versioned(inner, q);
    assert Stored(inner, q, stale);
    assert Answer(inner, q, stale);
    assert VersionKey(q.rel, Version(stale.group, fresher.vld)) in inner;
    assert !Current(inner, q, stale);
  }

  /** For the bounds of prefix scans and of bounded prefix scans: whatever is stored, the scan succeeds and answers with the current
      versions in its range, exactly if the range does not start behind its end, and it is empty or cuts no row to harm. */
  lemma RangeAnswersIff(q: Query, lower: Tuple, upper: Tuple)
    requires ByColumns(q, lower, upper)
    ensures AnswersCurrent(q) <==> !LexLess(q.upper, q.lower) && (q.lower == q.upper || CutsHarmlessly(q, lower, upper))
  {
    hide ByColumns, LexLess, SplitsHigh, HidesNewer, AnswersCurrent, Versioned, SeeksInside, Answer, Current;
    if LexLess(q.upper, q.lower) {
      BackwardsFails(q);
    } else if q.lower == q.upper {
      EmptyRangeAnswers(q);
    } else {
      LexTotal(q.lower, q.upper);
      if SplitsHigh(q.n, upper) {
        HighSplitFails(q, lower, upper);
      } else if SplitsLow(q.n, lower) && HidesNewer(q, lower[q.n].vld) {
        LowSplitStale(q, lower, upper);
      } else {
        HarmlessAnswersCurrent(q, lower, upper);
      }
    }
  }

  lemma BackwardsFails(q: Query)
    requires LexLess(q.upper, q.lower)
    ensures !AnswersCurrent(q)
  {
    hide LexLess;
    var inner: Store := map[];
    assert Versioned(inner, q);
  }

  lemma HarmlessAnswersCurrent(q: Query, lower: Tuple, upper: Tuple)
    requires ByColumns(q, lower, upper) && CutsHarmlessly(q, lower, upper) && !LexLess(q.upper, q.lower)
    ensures AnswersCurrent(q)
  {
    hide ByColumns, LexLess, SplitsLow, SplitsHigh, HidesNewer, Versioned, SeeksInside, Answer, Current, VersionKey;
    forall inner | Versioned(inner, q)
      ensures SeeksInside(inner, q)
      ensures forall ver :: Answer(inner, q, ver) <==> Current(inner, q, ver) && InRange(VersionKey(q.rel, ver), q.lower, q.upper)
    {
      HarmlessSeeks(inner, q, lower, upper);
      forall ver
        ensures Answer(inner, q, ver) <==> Current(inner, q, ver) && InRange(VersionKey(q.rel, ver), q.lower, q.upper)
      {
        HarmlessAnswers(inner, q, lower, upper, ver);
      }
    }
  }

  /** A bound on the validity changes which version is found: of two assertions, at 3 and at 8, the stale one answers. */
  lemma BoundFindsStale(q: Query)
    requires q.n == 0 && q.validAt == 10 && ByColumns(q, [Vld(Validity(5, true))], [Bot])
    ensures var a, b := Version([], Validity(3, true)), Version([], Validity(8, true));
            var inner: Store := map[VersionKey(q.rel, a) := [], VersionKey(q.rel, b) := []];
            Answer(inner, q, a) && !Current(inner, q, a) && Current(inner, q, b) && SeeksInside(inner, q)
  {
    hide VersionKey, InRange, LexLess;
    var a, b, t := Version([], Validity(3, true)), Version([], Validity(8, true)), Version([], TERMINAL_VALIDITY);
    var inner: Store := map[VersionKey(q.rel, a) := [], VersionKey(q.rel, b) := []];
    var lower, upper := [Vld(Validity(5, true))], [Bot];
    assert Proper(0, a) && Proper(0, b) && Proper(0, t);
    KeyCmp(q.rel, 0, a, b);
    LateInRange(q, a.vld);
    LateInRange(q, b.vld);
    LateInRange(q, t.vld);
    forall v
      ensures VersionKey(q.rel, Version([], v)) in inner <==> v == a.vld || v == b.vld
    {
      KeyCmp(q.rel, 0, Version([], v), a);
      KeyCmp(q.rel, 0, Version([], v), b);
    }
    assert Stored(inner, q, a);
    assert Version(a.group, b.vld) == b && Version(a.group, t.vld) == t;
    forall ver | Stored(inner, q, ver)
      ensures !LexLess(q.upper, NextBound(q, ver))
    {
      assert ver == Version([], ver.vld);
      LexTotal(VersionKey(q.rel, t), q.upper);
      InRangeMeans(VersionKey(q.rel, t), q);
    }
    InRangeMeans(VersionKey(q.rel, a), q);
    LessNotLess(q.lower, VersionKey(q.rel, a), q.upper);
    LexTotal(q.lower, q.upper);
  }

  lemma InRangeMeans(key: Bytes, q: Query)
    requires InRange(key, q.lower, q.upper)
    ensures !LexLess(key, q.lower) && LexLess(key, q.upper)
  {
  }

  lemma LateInRange(q: Query, v: Validity)
    requires q.n == 0 && ByColumns(q, [Vld(Validity(5, true))], [Bot])
    ensures InRange(VersionKey(q.rel, Version([], v)), q.lower, q.upper) <==> v.ts <= 5
  {
    var lower, upper := [Vld(Validity(5, true))], [Bot];
    AgainstBounds(q, lower, upper, Version([], v));
    assert [] + [Vld(v)] == [Vld(v)];
    assert EncodedCmpSeq([Vld(v)][1..], lower[1..]) == Equal && EncodedCmpSeq(lower[1..], [Vld(v)][1..]) == Equal;
    assert (upper + [Bot])[0] == Bot;
  }

  /** So do those of a scan of the whole relation. */
  lemma WholeRelationWhole(q: Query)
    requires q.rel + 1 < WORD && q.lower == EncodeAsKey(q.rel, []) && q.upper == EncodeAsKey(q.rel + 1, [])
    ensures forall ver :: Proper(q.n, ver) ==> InRange(VersionKey(q.rel, ver), q.lower, q.upper)
    ensures WholeGroups(q)
  {
    hide EncodedCmpSeq, EncodeAsKey, LexLess;
    forall ver | Proper(q.n, ver)
      ensures InRange(VersionKey(q.rel, ver), q.lower, q.upper)
    {
      var s := ver.group + [Vld(ver.vld)];
      WithValidity(ver.group, ver.vld);
      KeyOrder(q.rel, s, q.rel, []);
      KeyOrder(q.rel, s, q.rel + 1, []);
      AfterEmpty(s);
    }
  }

  lemma AfterEmpty(s: Tuple)
    requires s != []
    ensures EncodedCmpSeq(s, []) == Greater
  {
  }

  // ----- a stored terminal validity -----

  /** The scan gets past a version exactly if it does not carry the terminal validity; otherwise it looks at the same key again. */
  lemma AdvancesIff(q: Query, ver: Version)
    requires Proper(q.n, ver)
    ensures LexLess(VersionKey(q.rel, ver), NextBound(q, ver)) <==> ver.vld != TERMINAL_VALIDITY
    ensures ver.vld == TERMINAL_VALIDITY ==> NextBound(q, ver) == VersionKey(q.rel, ver)
  {
    hide VersionKey;
    var v := if ver.vld.ts > q.validAt then Validity(q.validAt, true) else TERMINAL_VALIDITY;
    KeyCmp(q.rel, q.n, ver, Version(ver.group, v));
  }

  // ----- scanning a store with uncommitted changes -----

  /** Uncommitted changes: new values, and `None` for deleted keys. */
  type Changes = map<Bytes, Option<Bytes>>

  /** All keys that the scan looks at, deleted ones included. */
  ghost function Union(stored: Store, delta: Changes): Store {
    map k | k in stored.Keys + delta.Keys :: if k in delta then (if delta[k].Some? then delta[k].value else []) else stored[k]
  }

  ghost predicate Live(delta: Changes, key: Bytes) {
    key in delta ==> delta[key].Some?
  }

  /** What is really there. */
  ghost function Effective(stored: Store, delta: Changes): Store {
    map k | k in Union(stored, delta) && Live(delta, k) :: Union(stored, delta)[k]
  }

  /** What the scan yields: the newest version, deleted ones included, if it is an assertion and not deleted. */
  ghost predicate DualAnswer(stored: Store, delta: Changes, q: Query, ver: Version) {
    Answer(Union(stored, delta), q, ver) && Live(delta, VersionKey(q.rel, ver))
  }

  class SkipDualIterator {
    const stored: Store
    const delta: Changes
    const q: Query
    var nextBound: Bytes

    ghost predicate Valid()
      reads this
    {
      Versioned(Union(stored, delta), q) && Cuts(Union(stored, delta), q, nextBound) && Reached(Union(stored, delta), q, nextBound)
    }

    constructor (stored: Store, delta: Changes, q: Query)
      requires Versioned(Union(stored, delta), q)
      ensures Valid() && this.stored == stored && this.delta == delta && this.q == q && nextBound == q.lower
    {
      this.stored, this.delta, this.q, nextBound := stored, delta, q, q.lower;
      new;
      StartCuts(Union(stored, delta), q);
      StartReached(Union(stored, delta), q);
    }

    /** The next version the scan yields, if there is one. Fails if a seek goes behind the end of the range. */
    method Next() returns (res: Result<Option<(Tuple, Bytes)>>, ghost found: Version)
      requires Valid()
      modifies this`nextBound
      ensures Valid()
      ensures res.Failure? ==> !SeeksInside(Union(stored, delta), q)
      ensures res.Success? && res.value.None? ==> SeeksInside(Union(stored, delta), q)
      ensures res.Success? && res.value.None? ==> forall a :: DualAnswer(stored, delta, q, a) ==> LexLess(VersionKey(q.rel, a), old(nextBound))
      ensures res.Success? && res.value.Some? ==>
        && DualAnswer(stored, delta, q, found) && res.value.value == RowOf(Union(stored, delta), q, found)
        && Left(Union(stored, delta), nextBound) < Left(Union(stored, delta), old(nextBound))
        && !LexLess(VersionKey(q.rel, found), old(nextBound))
        && forall a :: DualAnswer(stored, delta, q, a) ==>
             (LexLess(VersionKey(q.rel, a), nextBound) <==> LexLess(VersionKey(q.rel, a), old(nextBound)) || a == found)
    {
      hide Answer, Versioned, Cuts, Reached, SeeksInside, Least, Proper, RowOf, Union;
      found := Version([], TERMINAL_VALIDITY);
      ghost var inner := Union(stored, delta);
      while true
        invariant Valid() && Left(inner, nextBound) <= Left(inner, old(nextBound))
        invariant forall a :: DualAnswer(stored, delta, q, a) ==>
          (LexLess(VersionKey(q.rel, a), nextBound) <==> LexLess(VersionKey(q.rel, a), old(nextBound)))
        decreases Left(inner, nextBound)
      {
        CutsAbove(inner, q, nextBound);
        var candidate := FirstOfBoth(stored, delta, q, nextBound);
        if candidate.Failure? {
          ReachedOutside(inner, q, nextBound);
          return Failure, found;
        }
        if candidate.value.None? {
          ReachedEnd(inner, q, nextBound);
          forall a | DualAnswer(stored, delta, q, a)
            ensures LexLess(VersionKey(q.rel, a), old(nextBound))
          {
            AnswerStored(inner, q, a);
          }
          return Success(None), found;
        }
        var (key, val) := candidate.value.value;
        ghost var ver := VersionAt(inner, q, nextBound, key);
        var ret, next := CheckKeyForValidity(key, q.validAt, q.rel, q.n, ver);
        ghost var bound := nextBound;
        assert next == NextBound(q, ver);
        StepCuts(inner, q, bound, ver);
        StepReached(inner, q, bound, ver);
        NextIsLater(inner, q, ver);
        LeastFacts(inner, q, bound, key);
        LeftShrinks(inner, bound, next, key);
        nextBound := next;
        forall a | DualAnswer(stored, delta, q, a)
          ensures LexLess(VersionKey(q.rel, a), next) <==> LexLess(VersionKey(q.rel, a), bound) || (a == ver && ret.Some?)
        {
          StepAnswers(inner, q, bound, ver, a);
          PassedStays(inner, q, bound, ver, a);
        }
        if val.Some? && ret.Some? {
          StepAnswers(inner, q, bound, ver, ver);
          found := ver;
          res := Success(Some((ret.value, val.value)));
          assert res.value.value == RowOf(inner, q, found) by { RowAt(inner, q, ver, key); }
          return;
        }
      }
    }
  }

  /** The first key of either map, the changed value where both have it. */
  method FirstOfBoth(stored: Store, delta: Changes, q: Query, bound: Bytes) returns (res: Result<Option<(Bytes, Option<Bytes>)>>)
    requires !LexLess(bound, q.lower)
    ensures res.Failure? <==> LexLess(q.upper, bound)
    ensures res.Success? && res.value.Some? ==>
      var (key, val) := res.value.value;
      && Least(Union(stored, delta), q, bound, key)
      && (val.Some? <==> Live(delta, key))
      && (val.Some? ==> val.value == Union(stored, delta)[key])
    ensures res.Success? && res.value.None? ==> forall k :: k in Union(stored, delta) && InRange(k, q.lower, q.upper) ==> LexLess(k, bound)
  {
    var fromStored := FirstAtLeast(stored, q, bound);
    var fromDelta := FirstAtLeast(map k | k in delta :: [], q, bound);
    if fromStored.Failure? || fromDelta.Failure? {
      return Failure;
    }
    var s, d := fromStored.value, fromDelta.value;
    if s.None? && d.None? {
      return Success(None);
    }
    if d.None? || (s.Some? && LexLess(s.value, d.value)) {
      res := Success(Some((s.value, Some(stored[s.value]))));
      if d.Some? {
        LexTotal(s.value, d.value);
        forall k | k in delta && InRange(k, q.lower, q.upper) && !LexLess(k, bound)
          ensures !LexLess(k, s.value)
        {
          NotLessTrans(s.value, d.value, k);
        }
        LexTotal(s.value, s.value);
      }
    } else {
      res := Success(Some((d.value, delta[d.value])));
      if s.Some? {
        forall k | k in stored && InRange(k, q.lower, q.upper) && !LexLess(k, bound)
          ensures !LexLess(k, d.value)
        {
          NotLessTrans(d.value, s.value, k);
        }
      }
    }
  }

  /** Inside a writing transaction the scan fails in the same case, and otherwise yields exactly those versions, in key order. */
  method DualScan(stored: Store, delta: Changes, q: Query) returns (res: Result<seq<(Tuple, Bytes)>>, ghost vers: seq<Version>)
    requires Versioned(Union(stored, delta), q)
    ensures res.Success? <==> SeeksInside(Union(stored, delta), q)
    ensures res.Success? ==> Yields(Union(stored, delta), q, res.value, vers) && forall a :: DualAnswer(stored, delta, q, a) <==> a in vers
  {
    hide Answer, Versioned, RowOf, Cuts, Reached, SeeksInside, Union, Live;
    ghost var inner := Union(stored, delta);
    var it := new SkipDualIterator(stored, delta, q);
    var rows: seq<(Tuple, Bytes)> := [];
    vers := [];
    StartFresh(inner, q);
    while true
      invariant it.Valid() && it.stored == stored && it.delta == delta && it.q == q && Yields(inner, q, rows, vers)
      invariant forall i :: 0 <= i < |vers| ==> DualAnswer(stored, delta, q, vers[i]) && LexLess(VersionKey(q.rel, vers[i]), it.nextBound)
      invariant forall a :: DualAnswer(stored, delta, q, a) && LexLess(VersionKey(q.rel, a), it.nextBound) ==> a in vers
      decreases Left(inner, it.nextBound)
    {
      ghost var bound := it.nextBound;
      ghost var found;
      var r;
      r, found := it.Next();
      if r.Failure? {
        return Failure, vers;
      }
      if r.value.None? {
        return Success(rows), vers;
      }
      forall i | 0 <= i < |vers|
        ensures LexLess(VersionKey(q.rel, vers[i]), VersionKey(q.rel, found))
      {
        LessNotLess(VersionKey(q.rel, vers[i]), bound, VersionKey(q.rel, found));
      }
      rows, vers := rows + [r.value.value], vers + [found];
    }
  }

  /** No deleted version that could answer is newer than the version that should. */
  ghost predicate NothingHidden(stored: Store, delta: Changes, q: Query) {
    forall a, d :: (&& Answer(Effective(stored, delta), q, a) && Stored(Union(stored, delta), q, d) && !Live(delta, VersionKey(q.rel, d))
                    && d.group == a.group && d.vld.ts <= q.validAt) ==> d.vld.ts <= a.vld.ts
  }

  lemma EffectiveStored(stored: Store, delta: Changes, q: Query, ver: Version)
    ensures Stored(Effective(stored, delta), q, ver) <==> Stored(Union(stored, delta), q, ver) && Live(delta, VersionKey(q.rel, ver))
  {
    hide VersionKey, Proper, InRange;
  }

  /** A deleted version hides older ones: the scan finds what is really there exactly if nothing is hidden. */
  lemma DualScanIff(stored: Store, delta: Changes, q: Query)
    ensures (forall a :: DualAnswer(stored, delta, q, a) <==> Answer(Effective(stored, delta), q, a)) <==> NothingHidden(stored, delta, q)
  {
    hide VersionKey, Proper, InRange, Union, Live, Effective;
    var u, e := Union(stored, delta), Effective(stored, delta);
    forall a
      ensures DualAnswer(stored, delta, q, a) ==> Answer(e, q, a)
    {
      EffectiveStored(stored, delta, q, a);
      forall v
        ensures Stored(e, q, Version(a.group, v)) ==> Stored(u, q, Version(a.group, v))
      {
        EffectiveStored(stored, delta, q, Version(a.group, v));
      }
    }
    forall a | Answer(e, q, a)
      ensures DualAnswer(stored, delta, q, a) <==>
        forall v :: Stored(u, q, Version(a.group, v)) && !Live(delta, VersionKey(q.rel, Version(a.group, v))) && v.ts <= q.validAt ==> v.ts <= a.vld.ts
    {
      EffectiveStored(stored, delta, q, a);
      forall v
        ensures Stored(e, q, Version(a.group, v)) <==> Stored(u, q, Version(a.group, v)) && Live(delta, VersionKey(q.rel, Version(a.group, v)))
      {
        EffectiveStored(stored, delta, q, Version(a.group, v));
      }
    }
    if forall a :: DualAnswer(stored, delta, q, a) <==> Answer(e, q, a) {
      forall a, d | Answer(e, q, a) && Stored(u, q, d) && !Live(delta, VersionKey(q.rel, d)) && d.group == a.group && d.vld.ts <= q.validAt
        ensures d.vld.ts <= a.vld.ts
      {
        assert d == Version(a.group, d.vld);
      }
    }
  }

  /** Deleting the newest of two assertions hides the older one. */
  lemma DeletedHidesOlder(q: Query)
    requires q.n == 0 && q.validAt == 5 && q.rel + 1 < WORD && q.lower == EncodeAsKey(q.rel, []) && q.upper == EncodeAsKey(q.rel + 1, [])
    ensures var a, d := Version([], Validity(1, true)), Version([], Validity(2, true));
            var stored, delta := map[VersionKey(q.rel, a) := [], VersionKey(q.rel, d) := []], map[VersionKey(q.rel, d) := None];
            Answer(Effective(stored, delta), q, a) && !DualAnswer(stored, delta, q, a)
  {
    hide VersionKey, InRange;
    var a, d := Version([], Validity(1, true)), Version([], Validity(2, true));
    WholeRelationWhole(q);
    KeyCmp(q.rel, q.n, a, d);
    assert Proper(q.n, a) && Proper(q.n, d);
    var stored, delta := map[VersionKey(q.rel, a) := [], VersionKey(q.rel, d) := []], map[VersionKey(q.rel, d) := None];
    assert Stored(Union(stored, delta), q, d);
    forall v | Stored(Effective(stored, delta), q, Version([], v))
      ensures v == a.vld
    {
      KeyCmp(q.rel, q.n, Version([], v), a);
    }
    assert Stored(Effective(stored, delta), q, a);
    assert d == Version(a.group, d.vld);
  }
}
