/**
  Fixed-width Rust integer types and the one bitwise operation the core uses.

  Dafny integers are unbounded, so every Rust integer type the core stores is a
  subset type of `int` whose bounds are written out. `usize` is taken to be
  64 bits wide. The bitwise `&` on unsigned values is defined bit by bit on
  natural numbers, and `MaskLowBits` proves that masking with `2^k - 1`
  keeps exactly the remainder modulo `2^k`.
 */
module RustInts {

  const I32_MIN: int := -0x8000_0000
  const I32_MAX: int := 0x7FFF_FFFF
  const I64_MIN: int := -0x8000_0000_0000_0000
  const I64_MAX: int := 0x7FFF_FFFF_FFFF_FFFF
  const USIZE_MAX: int := 0xFFFF_FFFF_FFFF_FFFF
  const ISIZE_MAX: int := 0x7FFF_FFFF_FFFF_FFFF

  /** 2^63: one more than `i64::MAX`. */
  const TWO_63: int := 0x8000_0000_0000_0000

  type I32 = x: int | I32_MIN <= x <= I32_MAX
  type I64 = x: int | I64_MIN <= x <= I64_MAX
  type Usize = x: int | 0 <= x <= USIZE_MAX

  function Pow2(k: nat): (r: nat)
    ensures r >= 1
  {
    if k == 0 then 1 else 2 * Pow2(k - 1)
  }

  /** Bitwise AND of two unsigned values, one binary digit at a time. */
  function BitAnd(a: nat, b: nat): (r: nat)
    ensures r <= a && r <= b
    decreases a
  {
    if a == 0 || b == 0 then 0
    else 2 * BitAnd(a / 2, b / 2) + (if a % 2 == 1 && b % 2 == 1 then 1 else 0)
  }

  lemma ModUnique(x: int, d: int, q: int, m: int)
    requires d > 0 && 0 <= m < d && x == d * q + m
    ensures x % d == m && x / d == q
  {
    var k := x / d - q;
    assert d * k == m - x % d by {
      assert x == d * (x / d) + x % d;
      assert d * k == d * (x / d) - d * q;
    }
  }

  /** Dropping the lowest binary digit and reducing modulo `p` commutes with reducing modulo `2p`. */
  lemma ModDouble(x: nat, p: nat)
    requires p > 0
    ensures x % (2 * p) == 2 * ((x / 2) % p) + x % 2
  {
    var h := x / 2;
    var b := x % 2;
    var q := h / p;
    var m := h % p;
    assert h == p * q + m;
    assert x == (2 * p) * q + (2 * m + b) by {
      assert x == 2 * h + b;
    }
    ModUnique(x, 2 * p, q, 2 * m + b);
  }

  /** Masking with `2^k - 1` keeps the remainder modulo `2^k`. */
  lemma {:induction false} MaskLowBits(x: nat, k: nat)
    ensures BitAnd(x, Pow2(k) - 1) == x % Pow2(k)
    decreases k
  {
    if k == 0 {
    } else if x == 0 {
    } else {
      var m := Pow2(k) - 1;
      assert m / 2 == Pow2(k - 1) - 1 && m % 2 == 1;
      MaskLowBits(x / 2, k - 1);
      ModDouble(x, Pow2(k - 1));
    }
  }

  lemma {:induction false} Pow2Add(a: nat, b: nat)
    ensures Pow2(a + b) == Pow2(a) * Pow2(b)
    decreases a
  {
    if a > 0 {
      Pow2Add(a - 1, b);
    }
  }

  lemma Pow2Of63()
    ensures Pow2(63) == TWO_63 == I64_MAX + 1
  {
    assert Pow2(15) == 0x8000;
    assert Pow2(16) == 0x1_0000;
    Pow2Add(16, 16);
    Pow2Add(32, 16);
    Pow2Add(48, 15);
  }

  /**
    `v & (i64::MAX as _)` followed by `as i64`: the mask clears the sign bit,
    so the cast that follows never changes the value.
   */
  function MaskToI64(v: nat): (r: I64)
    ensures 0 <= r <= I64_MAX
    ensures r == v % TWO_63
  {
    Pow2Of63();
    MaskLowBits(v, 63);
    BitAnd(v, I64_MAX)
  }

  /** On a value that already fits in a non-negative `i64` the mask is the identity. */
  lemma MaskFitsIsIdentity(v: nat)
    requires v <= I64_MAX
    ensures v % TWO_63 == v
    ensures MaskToI64(v) == v
  {
    ModUnique(v, TWO_63, 0, v);
  }
}
