/** Byte strings in lexicographic order, and big-endian numbers. */
module Bytes {
  import opened Values

  type Bytes = seq<byte>

  /** The first position where the two differ, within both, has the smaller byte in `a`. */
  predicate Below(a: Bytes, b: Bytes) {
    a != [] && b != [] && (a[0] < b[0] || (a[0] == b[0] && Below(a[1..], b[1..])))
  }

  /** Lexicographic order: a proper prefix comes first. */
  predicate LexLess(a: Bytes, b: Bytes) {
    if b == [] then false
    else if a == [] then true
    else a[0] < b[0] || (a[0] == b[0] && LexLess(a[1..], b[1..]))
  }

  lemma {:induction false} LexLessIs(a: Bytes, b: Bytes)
    ensures LexLess(a, b) <==> (a < b || Below(a, b))
    decreases |a|
  {
    if a != [] && b != [] {
      LexLessIs(a[1..], b[1..]);
      assert a == [a[0]] + a[1..] && b == [b[0]] + b[1..];
    }
  }

  lemma {:induction false} LexTotal(a: Bytes, b: Bytes)
    ensures LexLess(a, b) || LexLess(b, a) || a == b
    ensures !(LexLess(a, b) && LexLess(b, a)) && !LexLess(a, a)
    decreases |a|
  {
    if a != [] {
      LexTotal(a[1..], a[1..]);
      if b != [] {
        LexTotal(a[1..], b[1..]);
        assert a == [a[0]] + a[1..] && b == [b[0]] + b[1..];
      }
    }
  }

  lemma {:induction false} LexTrans(a: Bytes, b: Bytes, c: Bytes)
    requires LexLess(a, b) && LexLess(b, c)
    ensures LexLess(a, c)
    decreases |a|
  {
    if a != [] && a[0] == b[0] == c[0] {
      LexTrans(a[1..], b[1..], c[1..]);
    }
  }

  /** Strictly below both ways is impossible. */
  lemma {:induction false} BelowAsymmetric(a: Bytes, b: Bytes)
    ensures !(Below(a, b) && Below(b, a)) && !Below(a, a)
    decreases |a|
  {
    if a != [] {
      BelowAsymmetric(a[1..], a[1..]);
      if b != [] {
        BelowAsymmetric(a[1..], b[1..]);
      }
    }
  }

  /** What is decided stays decided, whatever follows. */
  lemma {:induction false} BelowAppend(a: Bytes, b: Bytes, x: Bytes, y: Bytes)
    requires Below(a, b)
    ensures Below(a + x, b + y)
    decreases |a|
  {
    assert (a + x)[1..] == a[1..] + x && (b + y)[1..] == b[1..] + y;
    if a[0] == b[0] {
      BelowAppend(a[1..], b[1..], x, y);
    }
  }

  /** A common prefix decides nothing. */
  lemma {:induction false} BelowPrefix(p: Bytes, x: Bytes, y: Bytes)
    ensures Below(p + x, p + y) <==> Below(x, y)
    decreases |p|
  {
    if p == [] {
      assert p + x == x && p + y == y;
    } else {
      assert (p + x)[1..] == p[1..] + x && (p + y)[1..] == p[1..] + y;
      BelowPrefix(p[1..], x, y);
    }
  }

  lemma BelowAfter(p: Bytes, x: Bytes, y: Bytes)
    requires Below(x, y)
    ensures Below(p + x, p + y)
  {
    BelowPrefix(p, x, y);
  }

  /** For strings of one length, the two orders agree. */
  lemma {:induction false} SameLength(a: Bytes, b: Bytes)
    requires |a| == |b|
    ensures Below(a, b) <==> LexLess(a, b)
    decreases |a|
  {
    if a != [] {
      SameLength(a[1..], b[1..]);
    }
  }

  // ----- big-endian numbers -----

  function Pow256(n: nat): (r: nat)
    ensures r > 0
  {
    if n == 0 then 1 else 256 * Pow256(n - 1)
  }

  /** The last `n` bytes of a number, most significant first. */
  function BigEndian(u: nat, n: nat): (r: Bytes)
    ensures |r| == n
  {
    if n == 0 then [] else BigEndian(u / 256, n - 1) + [u % 256]
  }

  function FromBigEndian(bs: Bytes): nat {
    if bs == [] then 0 else FromBigEndian(bs[..|bs| - 1]) * 256 + bs[|bs| - 1]
  }

  lemma {:induction false} FromTo(u: nat, n: nat)
    requires u < Pow256(n)
    ensures FromBigEndian(BigEndian(u, n)) == u
    decreases n
  {
    if n > 0 {
      FromTo(u / 256, n - 1);
      var bs := BigEndian(u, n);
      assert bs[..|bs| - 1] == BigEndian(u / 256, n - 1);
    }
  }

  lemma {:induction false} FromBound(bs: Bytes)
    ensures FromBigEndian(bs) < Pow256(|bs|)
    decreases |bs|
  {
    if bs != [] {
      FromBound(bs[..|bs| - 1]);
    }
  }

  /** Big-endian bytes sort as the numbers do. */
  lemma {:induction false} BigEndianOrder(u: nat, v: nat, n: nat)
    requires u < v < Pow256(n)
    ensures Below(BigEndian(u, n), BigEndian(v, n))
    decreases n
  {
    if n > 0 {
      if u / 256 < v / 256 {
        BigEndianOrder(u / 256, v / 256, n - 1);
        BelowAppend(BigEndian(u / 256, n - 1), BigEndian(v / 256, n - 1), [u % 256], [v % 256]);
      } else {
        assert u / 256 == v / 256;
        BelowAfter(BigEndian(u / 256, n - 1), [u % 256], [v % 256]);
      }
    }
  }

  lemma WordFits()
    ensures Pow256(8) == WORD && Pow256(4) == 0x1_0000_0000
  {
    assert Pow256(1) == 256;
    assert Pow256(2) == 0x1_0000;
    assert Pow256(4) == 256 * Pow256(3) == 0x1_0000_0000;
    assert Pow256(6) == 256 * Pow256(5) == 0x1_0000_0000_0000;
  }

  function Word(u: u64): (r: Bytes)
    ensures |r| == 8
  {
    BigEndian(u, 8)
  }

  lemma WordOrder(u: u64, v: u64)
    requires u < v
    ensures Below(Word(u), Word(v))
  {
    WordFits();
    BigEndianOrder(u, v, 8);
  }

  lemma WordBack(u: u64)
    ensures FromBigEndian(Word(u)) == u
  {
    WordFits();
    FromTo(u, 8);
  }
}
