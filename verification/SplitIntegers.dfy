/** The 128-bit integers DuckDB hands over in two halves, and the tests the decoder
    makes on the halves. */
module SplitIntegers {
  const TWO_53 := 0x20_0000_0000_0000
  const TWO_63 := 0x8000_0000_0000_0000
  const TWO_64 := 0x1_0000_0000_0000_0000
  const LONG_MAX := TWO_63 - 1
  const LONG_MIN := -TWO_63

  predicate IsLong(n: int) { LONG_MIN <= n <= LONG_MAX }
  predicate IsU64(n: int) { 0 <= n < TWO_64 }

  /** A signed or unsigned upper half and an unsigned lower half. */
  datatype Split = Split(upper: int, lower: int)

  predicate IsHuge(h: Split) { IsLong(h.upper) && IsU64(h.lower) }
  predicate IsUHuge(h: Split) { IsU64(h.upper) && IsU64(h.lower) }

  /** The number the two halves stand for. */
  function Value(h: Split): int { h.upper * TWO_64 + h.lower }

  // The C conversions and operators the tests use.

  /** `(uint64_t) n` for a 64-bit signed `n`. */
  function ToU64(n: int): int { n % TWO_64 }

  /** `(zend_long) u` for a 64-bit unsigned `u`. */
  function ToLong(u: int): int { if u <= LONG_MAX then u else u - TWO_64 }

  /** `~n` on a signed and on an unsigned 64-bit integer. */
  function NotSigned(n: int): int { -1 - n }
  function NotU64(u: int): int { TWO_64 - 1 - u }

  /** The HUGEINT test on the halves. */
  predicate HugeFits(h: Split) {
    || (h.upper == 0 && h.lower <= ToU64(LONG_MAX))
    || (h.upper == -1 && h.lower >= ToU64(LONG_MIN))
  }

  /** The UHUGEINT test on the halves. */
  predicate UHugeFits(h: Split) {
    h.upper == 0 && h.lower <= ToU64(LONG_MAX)
  }

  /** How a narrow DECIMAL is widened before the common test. */
  function SignExtend(n: int): Split {
    Split(if n < 0 then -1 else 0, ToU64(n))
  }

  /** The DECIMAL test on the halves; adding one after the complement wraps at 2^64. */
  predicate DecimalIsDouble(h: Split) {
    || (h.upper == 0 && h.lower <= TWO_53)
    || (NotSigned(h.upper) == 0 && (NotU64(h.lower) + 1) % TWO_64 <= TWO_53)
  }

  function Pow2(e: nat): int { if e == 0 then 1 else 2 * Pow2(e - 1) }

  predicate IsFloatOf(n: int, m: int, e: nat) {
    -TWO_53 < m < TWO_53 && e <= 971 && n == m * Pow2(e)
  }

  /** An integer that binary64 represents exactly (section 3.3 of IEEE 754-2019). */
  ghost predicate IsBinary64(n: int) {
    exists m: int, e: nat :: IsFloatOf(n, m, e)
  }

  /** A HUGEINT becomes an integer exactly when it fits one, and keeps its value. */
  lemma {:induction false} HugeintExact(h: Split)
    requires IsHuge(h)
    ensures HugeFits(h) <==> IsLong(Value(h))
    ensures HugeFits(h) ==> ToLong(h.lower) == Value(h)
  {
  }

  /** The same for UHUGEINT. */
  lemma {:induction false} UHugeintExact(h: Split)
    requires IsUHuge(h)
    ensures UHugeFits(h) <==> IsLong(Value(h))
    ensures UHugeFits(h) ==> ToLong(h.lower) == Value(h)
  {
  }

  lemma {:induction false} SignExtendExact(n: int)
    requires IsLong(n)
    ensures IsHuge(SignExtend(n)) && Value(SignExtend(n)) == n
  {
  }

  lemma {:induction false} PowAdd(a: nat, b: nat)
    ensures Pow2(a + b) == Pow2(a) * Pow2(b)
  {
    if a > 0 {
      PowAdd(a - 1, b);
    }
  }

  lemma {:induction false} Powers()
    ensures Pow2(15) == 0x8000 && Pow2(31) == 0x8000_0000
    ensures Pow2(53) == TWO_53 && Pow2(64) == TWO_64
  {
    assert Pow2(8) == 0x100 by { assert Pow2(4) == 16; PowAdd(4, 4); }
    assert Pow2(16) == 0x1_0000 by { PowAdd(8, 8); }
    assert Pow2(32) == 0x1_0000_0000 by { PowAdd(16, 16); }
    assert Pow2(16) == 2 * Pow2(15) && Pow2(32) == 2 * Pow2(31);
    assert Pow2(48) == 0x1_0000_0000_0000 by { PowAdd(32, 16); }
    assert Pow2(53) == TWO_53 by { assert Pow2(5) == 32 by { assert Pow2(3) == 8; } PowAdd(48, 5); }
    assert Pow2(64) == TWO_64 by { PowAdd(32, 32); }
  }

  /** A DECIMAL becomes a double exactly when its unscaled integer is within 2^53, or is
      -2^64, where the complement wraps to 0; a double holds all of those exactly. */
  lemma {:induction false} DecimalExact(h: Split)
    requires IsHuge(h)
    ensures DecimalIsDouble(h) <==> -TWO_53 <= Value(h) <= TWO_53 || Value(h) == -TWO_64
    ensures DecimalIsDouble(h) ==> IsBinary64(Value(h))
  {
    if h.lower == 0 {
      assert (NotU64(h.lower) + 1) % TWO_64 == 0;
    } else {
      assert (NotU64(h.lower) + 1) % TWO_64 == TWO_64 - h.lower;
    }
    if DecimalIsDouble(h) {
      var n := Value(h);
      Powers();
      if n == -TWO_64 {
        assert IsFloatOf(n, -1, 64);
      } else if n == TWO_53 {
        assert IsFloatOf(n, 1, 53);
      } else if n == -TWO_53 {
        assert IsFloatOf(n, -1, 53);
      } else {
        assert IsFloatOf(n, n, 0);
      }
    }
  }

  /** The value that wraps: its neighbours stay text. */
  lemma {:induction false} ComplementWraps()
    ensures DecimalIsDouble(Split(-1, 0)) && Value(Split(-1, 0)) == -TWO_64
    ensures !DecimalIsDouble(Split(-1, 1)) && !DecimalIsDouble(Split(-2, TWO_64 - 1))
  {
  }
}
