/** Doubles as bit patterns: their total order (section 5.10 of IEEE 754-2019), and conversion from and to integers. */
module Floats {
  import opened Values

  /** 2 to the power of 52: the mantissa of a double has 52 stored bits. */
  const FRACTION: int := 0x10_0000_0000_0000

  function Pow2(n: nat): (r: nat)
    ensures r > 0
  {
    if n == 0 then 1 else 2 * Pow2(n - 1)
  }

  lemma {:induction false} Pow2Add(a: nat, b: nat)
    ensures Pow2(a + b) == Pow2(a) * Pow2(b)
    decreases a
  {
    if a > 0 {
      Pow2Add(a - 1, b);
    }
  }

  lemma {:induction false} Pow2Grows(a: nat, b: nat)
    requires a <= b
    ensures Pow2(a) <= Pow2(b)
    decreases b
  {
    if a < b {
      Pow2Grows(a, b - 1);
    }
  }

  lemma Pow2Values()
    ensures Pow2(52) == FRACTION && Pow2(53) == 2 * FRACTION && Pow2(63) == SIGN && Pow2(64) == WORD
  {
    Pow2Small();
    hide Pow2;
    Pow2Add(8, 8);
    Pow2Add(16, 16);
    Pow2Add(32, 16);
    Pow2Add(48, 4);
    Pow2Add(52, 1);
    Pow2Add(52, 8);
    Pow2Add(60, 3);
    Pow2Add(60, 4);
  }

  lemma Pow2Small()
    ensures Pow2(1) == 2 && Pow2(3) == 8 && Pow2(4) == 0x10 && Pow2(8) == 0x100
  {
    assert Pow2(6) == 0x40;
  }

  /** The position of the leading bit. */
  function Exponent(n: nat): (e: nat)
    requires n > 0
    ensures Pow2(e) <= n < Pow2(e + 1)
  {
    if n == 1 then 0 else 1 + Exponent(n / 2)
  }

  lemma ExponentGrows(m: nat, n: nat)
    requires 0 < m <= n
    ensures Exponent(m) <= Exponent(n)
  {
    if Exponent(n) < Exponent(m) {
      Pow2Grows(Exponent(n) + 1, Exponent(m));
    }
  }

  lemma ExponentBound(n: nat, k: nat)
    requires 0 < n < Pow2(k)
    ensures Exponent(n) < k
  {
    if k <= Exponent(n) {
      Pow2Grows(k, Exponent(n));
    }
  }

  /** `n / 2^s` rounded to the nearest integer, and to the even one half way (roundTiesToEven, section 4.3.1 of IEEE 754-2019). */
  function Rounded(n: nat, s: nat): (q: nat)
    ensures q == n / Pow2(s) || q == n / Pow2(s) + 1
  {
    var q, r := n / Pow2(s), n % Pow2(s);
    if 2 * r > Pow2(s) || (2 * r == Pow2(s) && q % 2 == 1) then q + 1 else q
  }

  /** No integer is nearer, and half way the even one is taken. */
  lemma RoundedIsNearest(n: nat, s: nat)
    ensures -(Pow2(s) as int) <= 2 * (Rounded(n, s) * Pow2(s) - n) <= Pow2(s)
    ensures 2 * (Rounded(n, s) * Pow2(s) - n) == Pow2(s) || 2 * (n - Rounded(n, s) * Pow2(s)) == Pow2(s) ==> Rounded(n, s) % 2 == 0
  {
    var d, q, r := Pow2(s), n / Pow2(s), n % Pow2(s);
    assert n == q * d + r;
    assert (q + 1) * d == q * d + d;
  }

  lemma RoundedGrows(m: nat, n: nat, s: nat)
    requires m <= n
    ensures Rounded(m, s) <= Rounded(n, s)
  {
    DivGrows(m, n, Pow2(s));
    if m / Pow2(s) == n / Pow2(s) {
      assert m == (m / Pow2(s)) * Pow2(s) + m % Pow2(s);
      assert n == (n / Pow2(s)) * Pow2(s) + n % Pow2(s);
    }
  }

  lemma MulGrows(a: int, b: int, d: nat)
    requires a <= b
    ensures a * d <= b * d
  {
  }

  lemma LessByMul(a: int, b: int, d: nat)
    requires d > 0 && a * d < (b + 1) * d
    ensures a <= b
  {
    if a > b {
      MulGrows(b + 1, a, d);
    }
  }

  lemma DivIs(n: int, d: nat)
    requires d > 0
    ensures (n / d) * d <= n < (n / d + 1) * d
  {
    assert n == (n / d) * d + n % d;
    assert (n / d + 1) * d == (n / d) * d + d;
  }

  lemma DivGrows(m: nat, n: nat, d: nat)
    requires m <= n && d > 0
    ensures m / d <= n / d
  {
    DivIs(m, d);
    DivIs(n, d);
    LessByMul(m / d, n / d, d);
  }

  lemma DivBetween(n: nat, d: nat, lo: nat, hi: nat)
    requires d > 0 && lo * d <= n < hi * d
    ensures lo <= n / d < hi
  {
    DivIs(n, d);
    LessByMul(lo, n / d, d);
    LessByMul(n / d, hi - 1, d);
  }

  // ----- magnitudes -----

  /** The leading 53 bits of a magnitude, rounded where there are more. */
  function Mantissa(n: nat): nat
    requires n > 0
  {
    var e := Exponent(n);
    if e <= 52 then n * Pow2(52 - e) else Rounded(n, e - 52)
  }

  lemma MantissaRange(n: nat)
    requires n > 0
    ensures FRACTION <= Mantissa(n) <= 2 * FRACTION
    ensures Exponent(n) <= 52 ==> Mantissa(n) < 2 * FRACTION
  {
    hide Pow2, Exponent;
    var e := Exponent(n);
    Pow2Values();
    if e <= 52 {
      Pow2Add(e, 52 - e);
      Pow2Add(e + 1, 52 - e);
      MulGrows(Pow2(e), n, Pow2(52 - e));
      MulGrows(n + 1, Pow2(e + 1), Pow2(52 - e));
      assert (n + 1) * Pow2(52 - e) == n * Pow2(52 - e) + Pow2(52 - e);
    } else {
      Pow2Add(52, e - 52);
      Pow2Add(53, e - 52);
      DivBetween(n, Pow2(e - 52), FRACTION, 2 * FRACTION);
    }
  }

  /** The bits of the double nearest to a magnitude; a mantissa that rounds up to the next power of two carries into the exponent. */
  function MagnitudeBits(n: nat): (r: int) {
    if n == 0 then 0 else (Exponent(n) + 1023) * FRACTION + (Mantissa(n) - FRACTION)
  }

  lemma MagnitudeRange(n: nat)
    requires 0 < n
    ensures (Exponent(n) + 1023) * FRACTION <= MagnitudeBits(n) <= (Exponent(n) + 1024) * FRACTION
    ensures Exponent(n) <= 52 ==> MagnitudeBits(n) < (Exponent(n) + 1024) * FRACTION
  {
    MantissaRange(n);
  }

  /** A larger magnitude never gets a smaller double. */
  lemma MagnitudeGrows(m: nat, n: nat)
    requires m <= n
    ensures 0 <= MagnitudeBits(m) <= MagnitudeBits(n)
  {
    if m > 0 {
      MagnitudeRange(m);
      MagnitudeRange(n);
      ExponentGrows(m, n);
      var e := Exponent(m);
      if e == Exponent(n) {
        if e <= 52 {
          MulGrows(m, n, Pow2(52 - e));
        } else {
          RoundedGrows(m, n, e - 52);
        }
      } else {
        assert (e + 1024) * FRACTION <= (Exponent(n) + 1023) * FRACTION;
      }
    } else if n > 0 {
      MagnitudeRange(n);
    }
  }

  /** Below 2^53 every integer has a double of its own. */
  lemma MagnitudeExact(m: nat, n: nat)
    requires m < n && m < 2 * FRACTION
    ensures MagnitudeBits(m) < MagnitudeBits(n)
  {
    MagnitudeRange(n);
    if m > 0 {
      Pow2Values();
      ExponentBound(m, 53);
      MagnitudeRange(m);
      ExponentGrows(m, n);
      var e := Exponent(m);
      if e == Exponent(n) {
        MulGrows(m + 1, n, Pow2(52 - e));
        assert (m + 1) * Pow2(52 - e) == m * Pow2(52 - e) + Pow2(52 - e);
      } else {
        assert (e + 1024) * FRACTION <= (Exponent(n) + 1023) * FRACTION;
      }
    }
  }

  lemma MagnitudeFits(n: nat)
    requires n <= SIGN
    ensures 0 <= MagnitudeBits(n) < SIGN
  {
    Pow2Values();
    if n > 0 {
      MagnitudeRange(n);
      ExponentBound(n, 64);
    }
  }

  // ----- integers to doubles and back -----

  function Magnitude(i: i64): (n: nat)
    ensures n <= SIGN
  {
    if i >= 0 then i else -(i as int)
  }

  function F64OfMagnitude(n: nat): (bits: u64)
    requires n <= SIGN
    ensures bits < SIGN
  {
    MagnitudeFits(n);
    MagnitudeBits(n)
  }

  /** The double nearest to an integer. */
  function F64OfInt(i: i64): (bits: u64) {
    if i >= 0 then F64OfMagnitude(Magnitude(i)) else SIGN + F64OfMagnitude(Magnitude(i))
  }

  /** Where a double stands in the total order. */
  function TotalKey(bits: u64): int {
    if bits < SIGN then bits else SIGN - bits - 1
  }

  lemma TotalKeyDetermines(a: u64, b: u64)
    ensures TotalKey(a) == TotalKey(b) <==> a == b
  {
  }

  /** Conversion respects the order, and is exact below 2^53 in magnitude. */
  lemma ConversionOrder(i: i64, j: i64)
    requires i < j
    ensures TotalKey(F64OfInt(i)) <= TotalKey(F64OfInt(j))
    ensures -2 * FRACTION < i < 2 * FRACTION || -2 * FRACTION < j < 2 * FRACTION ==> TotalKey(F64OfInt(i)) < TotalKey(F64OfInt(j))
  {
    var m, n := Magnitude(i), Magnitude(j);
    if 0 <= i {
      MagnitudeGrows(m, n);
      if m < 2 * FRACTION {
        MagnitudeExact(m, n);
      }
    } else if j < 0 {
      MagnitudeGrows(n, m);
      if n < 2 * FRACTION {
        MagnitudeExact(n, m);
      }
    }
  }

  /** Truncation of a double towards zero: 0 for NaN, the nearest bound for what does not fit. */
  function IntOfF64(bits: u64): (i: i64) {
    var mag := bits % SIGN;
    var e, m := mag / FRACTION, mag % FRACTION + FRACTION;
    if e == 2047 && m > FRACTION then 0
    else
      var n := if e < 1023 then 0 else if e <= 1075 then m / Pow2(1075 - e) else m * Pow2(e - 1075);
      if bits < SIGN then (if n >= SIGN then SIGN - 1 else n) else (if n >= SIGN then -SIGN else -n)
  }

  lemma MagnitudeBack(n: nat)
    requires 0 < n < 2 * FRACTION
    ensures MagnitudeBits(n) / FRACTION == Exponent(n) + 1023
    ensures MagnitudeBits(n) % FRACTION + FRACTION == Mantissa(n)
    ensures Exponent(n) <= 52 && Mantissa(n) / Pow2(52 - Exponent(n)) == n
  {
    Pow2Values();
    ExponentBound(n, 53);
    MantissaRange(n);
    var e := Exponent(n);
    DivExact(n, Pow2(52 - e));
    DivUnique(MagnitudeBits(n), FRACTION, e + 1023, Mantissa(n) - FRACTION);
  }

  lemma DivExact(n: nat, d: nat)
    requires d > 0
    ensures n * d / d == n
  {
    DivBetween(n * d, d, n, n + 1);
  }

  lemma DivUnique(x: int, d: nat, q: int, r: int)
    requires d > 0 && x == q * d + r && 0 <= r < d
    ensures x / d == q && x % d == r
  {
    DivIs(x, d);
    assert (q + 1) * d == q * d + d;
    LessByMul(q, x / d, d);
    LessByMul(x / d, q, d);
    assert x == (x / d) * d + x % d;
  }

  /** Integers below 2^53 survive the round trip through a double. */
  lemma ConversionBack(i: i64)
    requires -2 * FRACTION < i < 2 * FRACTION
    ensures IntOfF64(F64OfInt(i)) == i
  {
    var n := Magnitude(i);
    MagnitudeFits(n);
    var bits := F64OfInt(i);
    assert bits % SIGN == MagnitudeBits(n);
    if n > 0 {
      MagnitudeBack(n);
    }
  }

  // ----- keys -----

  /** `u | SIGN_MARK` for a clear sign bit, all bits flipped for a set one. */
  function OrderEncodeF64(bits: u64): (u: u64) {
    if bits < SIGN then bits + SIGN else WORD - 1 - bits
  }

  function OrderDecodeF64(u: u64): (bits: u64) {
    if u >= SIGN then u - SIGN else WORD - 1 - u
  }

  /** Flipping the sign bit of a two's complement number. */
  function OrderEncodeI64(i: i64): (u: u64) {
    i + SIGN
  }

  function OrderDecodeI64(u: u64): (i: i64) {
    u - SIGN
  }

  lemma OrderCodesBack(bits: u64, i: i64)
    ensures OrderDecodeF64(OrderEncodeF64(bits)) == bits && OrderDecodeI64(OrderEncodeI64(i)) == i
    ensures OrderEncodeF64(bits) == TotalKey(bits) + SIGN
  {
  }
}
