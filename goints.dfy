/**
 * Go's fixed-width integers and the operators the generator uses on them,
 * written out over mathematical integers: shifts that drop the bits above the
 * width, wrapping addition, two's-complement conversions, bitwise AND/OR
 * defined bit by bit, and Go's truncating division and remainder.
 */
module GoInts {

  const TWO8: int := 0x100
  const TWO16: int := 0x1_0000
  const TWO63: int := 0x8000_0000_0000_0000
  const TWO64: int := 0x1_0000_0000_0000_0000

  type uint8 = x: int | 0 <= x < TWO8
  type uint16 = x: int | 0 <= x < TWO16
  type uint64 = x: int | 0 <= x < TWO64
  type int64 = x: int | -TWO63 <= x < TWO63

  function Pow2(k: nat): (r: nat)
    ensures r > 0
  {
    if k == 0 then 1 else 2 * Pow2(k - 1)
  }

  lemma {:induction false} Pow2Add(a: nat, b: nat)
    ensures Pow2(a + b) == Pow2(a) * Pow2(b)
  {
    if a > 0 {
      Pow2Add(a - 1, b);
      assert Pow2(a + b) == 2 * Pow2(a - 1 + b);
    }
  }

  /** The powers of two that the Sonyflake bit layout is built from. */
  lemma Pow2Values()
    ensures Pow2(8) == TWO8 && Pow2(16) == TWO16 && Pow2(24) == 0x100_0000
    ensures Pow2(39) == 0x80_0000_0000 && Pow2(40) == 0x100_0000_0000
    ensures Pow2(48) == 0x1_0000_0000_0000 && Pow2(63) == TWO63 && Pow2(64) == TWO64
  {
    assert Pow2(3) == 8;
    assert Pow2(4) == 16 by { assert Pow2(2) == 4; Pow2Add(2, 2); }
    Pow2Add(4, 4); Pow2Add(8, 8); Pow2Add(16, 8); Pow2Add(16, 16);
    Pow2Add(4, 3); Pow2Add(32, 7); Pow2Add(39, 1); Pow2Add(32, 16);
    Pow2Add(32, 32); Pow2Add(63, 1);
  }

  lemma MulLe(a: int, b: int, d: int)
    requires a <= b && d >= 0
    ensures a * d <= b * d
  {
    var e := b - a;
    assert e * d >= 0;
    assert b * d == a * d + e * d;
  }

  lemma MulTwice(a: int, p: int)
    ensures 2 * (a * p) == a * (2 * p)
  {
  }

  /** Quotient and remainder are unique: x == q * d + r with 0 <= r < d fixes both. */
  lemma DivModUnique(x: int, d: int, q: int, r: int)
    requires d > 0 && 0 <= r < d && x == q * d + r
    ensures x / d == q && x % d == r
  {
    var q', r' := x / d, x % d;
    assert x == q' * d + r';
    if q' < q {
      assert (q' + 1) * d == q' * d + d;
      MulLe(q' + 1, q, d);
    } else if q < q' {
      assert (q + 1) * d == q * d + d;
      MulLe(q + 1, q', d);
    }
  }

  lemma DivLe(x: nat, p: int)
    requires p > 0
    ensures 0 <= x / p <= x
  {
    var q := x / p;
    assert x == q * p + x % p;
    MulLe(1, p, q);
  }

  /** Splitting off the lowest bit of x before dividing by a power of two. */
  lemma Pow2DivMod(x: nat, k: nat)
    requires k > 0
    ensures x / Pow2(k) == (x / 2) / Pow2(k - 1)
    ensures x % Pow2(k) == 2 * ((x / 2) % Pow2(k - 1)) + x % 2
  {
    var p := Pow2(k - 1);
    var q, b := x / 2, x % 2;
    var hi, lo := q / p, q % p;
    assert x == hi * (2 * p) + (2 * lo + b);
    DivModUnique(x, 2 * p, hi, 2 * lo + b);
  }

  /** The n low bits of a & b (Go's & on an n-bit unsigned type). */
  function AndBits(a: nat, b: nat, n: nat): (r: nat)
    ensures r <= a && r <= b
  {
    if n == 0 then 0
    else 2 * AndBits(a / 2, b / 2, n - 1) + (if a % 2 == 1 && b % 2 == 1 then 1 else 0)
  }

  /** The n low bits of a | b (Go's | on an n-bit unsigned type). */
  function OrBits(a: nat, b: nat, n: nat): (r: nat)
    ensures r < Pow2(n)
    ensures a < Pow2(n) ==> a <= r
    ensures b < Pow2(n) ==> b <= r
  {
    if n == 0 then 0
    else 2 * OrBits(a / 2, b / 2, n - 1) + (if a % 2 == 1 || b % 2 == 1 then 1 else 0)
  }

  /** Masking with no one-bits gives 0. */
  lemma {:induction false} AndZero(x: nat, n: nat)
    ensures AndBits(x, 0, n) == 0
  {
    if n > 0 {
      AndZero(x / 2, n - 1);
    }
  }

  /** Masking with k low one-bits keeps the value modulo 2^k. */
  lemma {:induction false} AndLowMask(x: nat, k: nat, n: nat)
    requires k <= n
    ensures AndBits(x, Pow2(k) - 1, n) == x % Pow2(k)
  {
    if k == 0 {
      AndZero(x, n);
    } else {
      var p := Pow2(k - 1);
      var m := Pow2(k) - 1;
      var h := x / 2;
      assert m / 2 == p - 1 && m % 2 == 1 by {
        DivModUnique(m, 2, p - 1, 1);
      }
      assert AndBits(x, m, n) == 2 * AndBits(h, p - 1, n - 1) + x % 2;
      AndLowMask(h, k - 1, n - 1);
      Pow2DivMod(x, k);
    }
  }

  /** Masking y << j + z (z below 2^j) with m << j is masking y with m, shifted left by j. */
  lemma {:induction false} AndShiftedMask(y: nat, z: nat, m: nat, j: nat, n: nat)
    requires j <= n && z < Pow2(j)
    ensures AndBits(y * Pow2(j) + z, m * Pow2(j), n) == AndBits(y, m, n - j) * Pow2(j)
  {
    if j == 0 {
      assert y * Pow2(j) + z == y && m * Pow2(j) == m;
    } else {
      var p := Pow2(j - 1);
      assert Pow2(j) == 2 * p;
      var x, mj := y * Pow2(j) + z, m * p;
      assert x == (y * p + z / 2) * 2 + z % 2;
      DivModUnique(x, 2, y * p + z / 2, z % 2);
      assert m * Pow2(j) == mj * 2 + 0;
      DivModUnique(m * Pow2(j), 2, mj, 0);
      assert AndBits(x, m * Pow2(j), n) == 2 * AndBits(y * p + z / 2, mj, n - 1);
      AndShiftedMask(y, z / 2, m, j - 1, n - 1);
      var a := AndBits(y, m, n - j);
      MulTwice(a, p);
    }
  }

  /** OR with a zero operand is the identity on n-bit values. */
  lemma {:induction false} OrZero(a: nat, n: nat)
    requires a < Pow2(n)
    ensures OrBits(a, 0, n) == a
  {
    if n > 0 {
      OrZero(a / 2, n - 1);
    }
  }

  /** OR of a value shifted left by k with one below 2^k is their sum. */
  lemma {:induction false} OrDisjoint(a: nat, b: nat, k: nat, n: nat)
    requires k <= n && b < Pow2(k) && a * Pow2(k) < Pow2(n)
    ensures OrBits(a * Pow2(k), b, n) == a * Pow2(k) + b
  {
    if k == 0 {
      OrZero(a, n);
    } else {
      var ak := a * Pow2(k - 1);
      assert a * Pow2(k) == 2 * ak;
      assert (a * Pow2(k)) / 2 == ak && (a * Pow2(k)) % 2 == 0;
      OrDisjoint(a, b / 2, k - 1, n - 1);
    }
  }

  function And16(a: uint16, b: uint16): (r: uint16)
    ensures r <= a && r <= b
  {
    AndBits(a, b, 16)
  }

  function And64(a: uint64, b: uint64): (r: uint64)
    ensures r <= a && r <= b
  {
    AndBits(a, b, 64)
  }

  function Or64(a: uint64, b: uint64): (r: uint64)
    ensures a <= r && b <= r
  {
    assert Pow2(64) == TWO64 by { Pow2Values(); }
    OrBits(a, b, 64)
  }

  /** Go's x << k on uint16: the bits shifted past bit 15 are lost. */
  function Shl16(x: uint16, k: nat): (r: uint16)
  {
    (x * Pow2(k)) % TWO16
  }

  /** Go's x << k on uint64: the bits shifted past bit 63 are lost. */
  function Shl64(x: uint64, k: nat): (r: uint64)
  {
    (x * Pow2(k)) % TWO64
  }

  /** Go's x >> k on uint64. */
  function Shr64(x: uint64, k: nat): (r: uint64)
    ensures r <= x
  {
    var p := Pow2(k);
    DivLe(x, p);
    x / p
  }

  /** Go's a + b on uint16, wrapping modulo 2^16. */
  function Add16(a: uint16, b: uint16): (r: uint16)
    ensures a + b < TWO16 ==> r == a + b
    ensures a + b >= TWO16 ==> r == a + b - TWO16
  {
    (a + b) % TWO16
  }

  /** Go's uint64(x) for an int64 x: the same 64 bits read as unsigned (the low 64 bits of x in general). */
  function Uint64(x: int): (r: uint64)
    ensures 0 <= x < TWO64 ==> r == x
    ensures -TWO63 <= x < 0 ==> r == x + TWO64
  {
    x % TWO64
  }

  /** Go's int64(x) (and time.Duration(x)) for a uint64 x: the same 64 bits read as signed. */
  function Int64(x: uint64): (r: int64)
    ensures Uint64(r) == x
  {
    if x < TWO63 then x else x - TWO64
  }

  /** Go's a / b on integers: the quotient truncated toward zero. */
  function Quo(a: int, b: int): (r: int)
    requires b > 0
  {
    if a >= 0 then a / b else -((-a) / b)
  }

  /** Go's a % b on integers: the remainder takes the sign of a. */
  function Rem(a: int, b: int): (r: int)
    requires b > 0
  {
    if a >= 0 then a % b else -((-a) % b)
  }

  /** Go's division identity a == (a / b) * b + a % b, with |a % b| < b and a % b of a's sign. */
  lemma QuoRem(a: int, b: int)
    requires b > 0
    ensures a == Quo(a, b) * b + Rem(a, b)
    ensures a >= 0 ==> 0 <= Rem(a, b) < b
    ensures a < 0 ==> -b < Rem(a, b) <= 0
  {
    if a < 0 {
      assert -a == ((-a) / b) * b + (-a) % b;
    }
  }
}
