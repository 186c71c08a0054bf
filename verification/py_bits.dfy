/**
 * Python's integer bit operations on unbounded integers (`|`, `&`, `<<`,
 * `>>`), `int.from_bytes(b, 'little')`, and the facts about masks and
 * shifted fields the fuse tools rely on.
 */
module PyBits {

  type Byte = x: int | 0 <= x < 256

  function Pow2(n: nat): (r: nat)
    ensures r >= 1
  {
    if n == 0 then 1 else 2 * Pow2(n - 1)
  }

  function Abs(a: int): nat { if a < 0 then -a else a }

  lemma HalfShrinks(a: int)
    requires a != 0 && a != -1
    ensures Abs(a / 2) < Abs(a)
  {
  }

  lemma HalfNoGrow(a: int)
    ensures Abs(a / 2) <= Abs(a)
  {
  }

  /**
   * Python's `a | b`: integers as two's complement of unbounded width, so
   * the recursion on the low bit ends at 0 (no bits) or -1 (all bits).
   */
  function BitOr(a: int, b: int): int
    decreases Abs(a) + Abs(b)
  {
    if a == 0 then b
    else if b == 0 then a
    else if a == -1 || b == -1 then -1
    else
      HalfShrinks(a);
      HalfNoGrow(b);
      2 * BitOr(a / 2, b / 2) + (if a % 2 == 1 || b % 2 == 1 then 1 else 0)
  }

  /** Python's `a & b` on unbounded two's-complement integers. */
  function BitAnd(a: int, b: int): int
    decreases Abs(a) + Abs(b)
  {
    if a == 0 || b == 0 then 0
    else if a == -1 then b
    else if b == -1 then a
    else
      HalfShrinks(a);
      HalfNoGrow(b);
      2 * BitAnd(a / 2, b / 2) + (a % 2) * (b % 2)
  }

  /** Python's `a << n` for a non-negative count. */
  function Shl(a: int, n: nat): int { a * Pow2(n) }

  /** Python's `a >> n` for a non-negative count: division rounding down. */
  function Shr(a: int, n: nat): int { a / Pow2(n) }

  /** `int.from_bytes(b, 'little')`. */
  function LittleEndian(b: seq<Byte>): (r: nat)
    ensures r < Pow2(8 * |b|)
  {
    if b == [] then 0
    else
      var r := b[0] + 256 * LittleEndian(b[1..]);
      assert Pow2(8 * |b|) == 256 * Pow2(8 * |b[1..]|) by { Pow2Add(8, 8 * |b[1..]|); }
      r
  }

  /**
   * The mask built from a string of `total` bits, bit `i` set exactly when
   * `lo <= i < hi`: the number `int(bits[::-1], 2)` denotes.
   */
  function BitRangeMask(lo: int, hi: int, total: nat): nat
  {
    if total == 0 then 0
    else BitRangeMask(lo, hi, total - 1) + (if lo <= total - 1 < hi then Pow2(total - 1) else 0)
  }

  /* ---------------------------------------------------------------- */

  lemma {:induction false} Pow2Add(a: nat, b: nat)
    ensures Pow2(a + b) == Pow2(a) * Pow2(b)
    decreases a
  {
    if a > 0 {
      Pow2Add(a - 1, b);
    }
  }

  lemma {:induction false} Pow2Mono(a: nat, b: nat)
    requires a <= b
    ensures Pow2(a) <= Pow2(b)
    decreases b
  {
    if a < b {
      Pow2Mono(a, b - 1);
    }
  }

  /** Or-ing a value below `2^k` into a number shifted left by `k` is addition. */
  lemma {:induction false} OrShifted(a: int, k: nat, b: int)
    requires 0 <= b < Pow2(k)
    ensures BitOr(a * Pow2(k), b) == a * Pow2(k) + b
    decreases k
  {
    var x := a * Pow2(k);
    if k == 0 {
    } else if x == 0 || b == 0 {
    } else {
      assert Pow2(k) == 2 * Pow2(k - 1);
      assert x == 2 * (a * Pow2(k - 1));
      assert x / 2 == a * Pow2(k - 1) && x % 2 == 0;
      assert x != -1;
      OrShifted(a, k - 1, b / 2);
    }
  }

  /** The bit-string mask for `[lo, hi)` within `total` bits is `2^hi - 2^lo`. */
  lemma {:induction false} BitRangeMaskValue(lo: nat, hi: nat, total: nat)
    requires lo <= hi <= total
    ensures BitRangeMask(lo, hi, total) == Pow2(hi) - Pow2(lo)
    decreases total
  {
    if total == 0 {
    } else if hi == total {
      if lo == hi {
        BitRangeMaskEmpty(lo, hi, total);
      } else {
        BitRangeMaskValue(lo, hi - 1, total - 1);
        BitRangeMaskSame(lo, hi, hi - 1, total - 1);
      }
    } else {
      BitRangeMaskValue(lo, hi, total - 1);
    }
  }

  /** Bits at or above `total` never reach the mask. */
  lemma {:induction false} BitRangeMaskSame(lo: int, hi: int, hi': int, total: nat)
    requires total <= hi && total <= hi'
    ensures BitRangeMask(lo, hi, total) == BitRangeMask(lo, hi', total)
    decreases total
  {
    if total > 0 {
      BitRangeMaskSame(lo, hi, hi', total - 1);
    }
  }

  /** An empty range gives the zero mask. */
  lemma {:induction false} BitRangeMaskEmpty(lo: int, hi: int, total: nat)
    requires hi <= lo
    ensures BitRangeMask(lo, hi, total) == 0
    decreases total
  {
    if total > 0 {
      BitRangeMaskEmpty(lo, hi, total - 1);
    }
  }

  lemma MulLeft(a: int, d: nat)
    requires a >= 1
    ensures a * d >= d
  {
  }

  /** Quotient and remainder are determined by any decomposition `x == q * d + r`. */
  lemma DivModUnique(x: int, d: int, q: int, r: int)
    requires d > 0 && 0 <= r < d && x == q * d + r
    ensures x / d == q && x % d == r
  {
    var q0 := x / d;
    var r0 := x % d;
    assert x == q0 * d + r0;
    if q0 > q {
      assert (q0 - q) * d == r - r0;
      MulLeft(q0 - q, d);
      assert false;
    } else if q0 < q {
      assert (q - q0) * d == r0 - r;
      MulLeft(q - q0, d);
      assert false;
    }
  }

  lemma DivDouble(x: nat, p: nat)
    requires p >= 1
    ensures (x / 2) / p == x / (2 * p)
  {
    var q := x / (2 * p);
    var r := x % (2 * p);
    assert x == q * (2 * p) + r;
    DivModUnique(x, 2, p * q + r / 2, r % 2);
    DivModUnique(x / 2, p, q, r / 2);
  }

  lemma ModDouble(x: nat, p: nat)
    requires p >= 1
    ensures x % (2 * p) == 2 * ((x / 2) % p) + x % 2
  {
    var q := (x / 2) / p;
    var r := (x / 2) % p;
    assert x / 2 == q * p + r;
    assert x == q * (2 * p) + (2 * r + x % 2);
    DivModUnique(x, 2 * p, q, 2 * r + x % 2);
  }

  /**
   * And-ing with the mask `2^hi - 2^lo` keeps bits `lo` to `hi - 1`: the
   * field, still in place.
   */
  lemma {:induction false} AndRangeMask(x: nat, lo: nat, hi: nat)
    requires lo <= hi
    ensures BitAnd(x, Pow2(hi) - Pow2(lo)) == Pow2(lo) * ((x / Pow2(lo)) % Pow2(hi - lo))
    decreases hi, 1
  {
    if lo == hi {
      assert Pow2(hi) - Pow2(lo) == 0 && Pow2(hi - lo) == 1;
    } else if x == 0 {
      DivModUnique(0, Pow2(lo), 0, 0);
      DivModUnique(0, Pow2(hi - lo), 0, 0);
    } else if lo == 0 {
      AndRangeMaskLow(x, hi);
    } else {
      AndRangeMaskHigh(x, lo, hi);
    }
  }

  lemma {:induction false} AndRangeMaskLow(x: nat, hi: nat)
    requires x > 0 && hi > 0
    ensures BitAnd(x, Pow2(hi) - 1) == x % Pow2(hi)
    decreases hi, 0
  {
    var p := Pow2(hi - 1);
    AndStepLow(x, hi);
    assert BitAnd(x / 2, p - 1) == (x / 2) % p by {
      AndRangeMask(x / 2, 0, hi - 1);
      DivModUnique(x / 2, 1, x / 2, 0);
    }
    ModDouble(x, p);
  }

  lemma {:induction false} AndRangeMaskHigh(x: nat, lo: nat, hi: nat)
    requires x > 0 && 0 < lo < hi
    ensures BitAnd(x, Pow2(hi) - Pow2(lo)) == Pow2(lo) * ((x / Pow2(lo)) % Pow2(hi - lo))
    decreases hi, 0
  {
    var h := Pow2(lo - 1);
    var f := (x / Pow2(lo)) % Pow2(hi - lo);
    var y := BitAnd(x / 2, Pow2(hi - 1) - h);
    assert BitAnd(x, Pow2(hi) - Pow2(lo)) == 2 * y by {
      AndStepHigh(x, lo, hi);
    }
    assert y == h * f by {
      AndRangeMask(x / 2, lo - 1, hi - 1);
      DivDouble(x, h);
    }
    assert Pow2(lo) == 2 * h;
    DoubleProduct(BitAnd(x, Pow2(hi) - Pow2(lo)), y, h, f, Pow2(lo));
  }

  lemma DoubleProduct(a: int, y: int, h: int, f: int, p: int)
    requires a == 2 * y && y == h * f && p == 2 * h
    ensures a == p * f
  {
  }

  lemma AndStepLow(x: nat, hi: nat)
    requires x > 0 && hi > 0
    ensures BitAnd(x, Pow2(hi) - 1) == 2 * BitAnd(x / 2, Pow2(hi - 1) - 1) + x % 2
  {
    var p := Pow2(hi - 1);
    DivModUnique(Pow2(hi) - 1, 2, p - 1, 1);
  }

  lemma AndStepHigh(x: nat, lo: nat, hi: nat)
    requires x > 0 && 0 < lo < hi
    ensures BitAnd(x, Pow2(hi) - Pow2(lo)) == 2 * BitAnd(x / 2, Pow2(hi - 1) - Pow2(lo - 1))
  {
    Pow2Mono(lo, hi - 1);
    Pow2Mono(lo + 1, hi);
    DivModUnique(Pow2(hi) - Pow2(lo), 2, Pow2(hi - 1) - Pow2(lo - 1), 0);
  }

  /**
   * `(x & mask) >> lo` for the mask of bits `[lo, hi)`: the field value,
   * which is below `2^(hi - lo)`.
   */
  lemma FieldExtract(x: nat, lo: nat, hi: nat)
    requires lo <= hi
    ensures Shr(BitAnd(x, Pow2(hi) - Pow2(lo)), lo) == (x / Pow2(lo)) % Pow2(hi - lo)
    ensures 0 <= Shr(BitAnd(x, Pow2(hi) - Pow2(lo)), lo) < Pow2(hi - lo)
  {
    var f := (x / Pow2(lo)) % Pow2(hi - lo);
    assert BitAnd(x, Pow2(hi) - Pow2(lo)) == Pow2(lo) * f by {
      AndRangeMask(x, lo, hi);
    }
    DivModUnique(f * Pow2(lo), Pow2(lo), f, 0);
  }
}
