/** C++ fixed-width unsigned arithmetic as the contract's key functions use it:
    `uint128_t` conversions, left shifts and additions that wrap modulo 2^128,
    and bitwise `&`. Integers are unbounded in Dafny, so every wrap is explicit. */
module FixedWidth {

  const TWO_56: nat := 0x100_0000_0000_0000
  const TWO_64: nat := 0x1_0000_0000_0000_0000
  const TWO_123: nat := 0x800_0000_0000_0000_0000_0000_0000_0000
  const TWO_125: nat := 0x2000_0000_0000_0000_0000_0000_0000_0000
  const TWO_128: nat := 0x1_0000_0000_0000_0000_0000_0000_0000_0000
  /** std::numeric_limits<uint64_t>::max() */
  const UINT64_MAX: nat := 0xFFFF_FFFF_FFFF_FFFF

  type Uint8 = x: int | 0 <= x < 0x100
  type Uint32 = x: int | 0 <= x < 0x1_0000_0000
  type Uint64 = x: int | 0 <= x < 0x1_0000_0000_0000_0000
  type Int64 = x: int | -0x8000_0000_0000_0000 <= x < 0x8000_0000_0000_0000
  type Uint128 = x: int | 0 <= x < 0x1_0000_0000_0000_0000_0000_0000_0000_0000

  function Pow2(n: nat): (p: nat)
    ensures p >= 1
  {
    if n == 0 then 1 else 2 * Pow2(n - 1)
  }

  /** The shift amounts the key functions use. */
  lemma Pow2Constants()
    ensures Pow2(56) == TWO_56 && Pow2(64) == TWO_64
    ensures Pow2(123) == TWO_123 && Pow2(125) == TWO_125 && Pow2(128) == TWO_128
  {
    assert Pow2(8) == 0x100;
    Pow2Add(8, 8);
    assert Pow2(16) == 0x1_0000;
    Pow2Add(16, 16);
    assert Pow2(32) == 0x1_0000_0000;
    Pow2Add(32, 16);
    assert Pow2(48) == 0x1_0000_0000_0000;
    Pow2Add(48, 8);
    assert Pow2(56) == TWO_56;
    Pow2Add(32, 32);
    assert Pow2(64) == TWO_64;
    Pow2Add(64, 56);
    assert Pow2(120) == 0x100_0000_0000_0000_0000_0000_0000_0000;
    assert Pow2(3) == 8;
    Pow2Add(120, 3);
    assert Pow2(123) == TWO_123;
    Pow2Add(123, 2);
    Pow2Add(64, 64);
  }

  lemma {:induction false} Pow2Add(m: nat, n: nat)
    ensures Pow2(m + n) == Pow2(m) * Pow2(n)
    decreases m
  {
    if m > 0 {
      Pow2Add(m - 1, n);
    }
  }

  /** `uint128_t(x)` for a signed 64-bit x: a negative value is sign-extended,
      that is, taken modulo 2^128. */
  function Int64ToUint128(x: Int64): (r: Uint128)
    ensures r == x % TWO_128
    ensures x >= 0 ==> r == x
  {
    if x < 0 then DivModUnique(x, TWO_128, -1, x + TWO_128); x + TWO_128
    else DivModUnique(x, TWO_128, 0, x); x
  }

  /** `x << n` on `uint128_t`: bits shifted past bit 127 are lost, so the
      result is the low 128 - n bits of x moved up by n. */
  function Shl128(x: Uint128, n: nat): (r: Uint128)
    requires n < 128
    ensures r == (x % Pow2(128 - n)) * Pow2(n)
    ensures x * Pow2(n) < TWO_128 ==> r == x * Pow2(n)
  {
    ShlKeepsLowBits(x, n);
    (x * Pow2(n)) % TWO_128
  }

  lemma ShlKeepsLowBits(x: nat, n: nat)
    requires n < 128
    ensures (x * Pow2(n)) % TWO_128 == (x % Pow2(128 - n)) * Pow2(n)
    ensures x * Pow2(n) < TWO_128 ==> (x * Pow2(n)) % TWO_128 == x * Pow2(n)
  {
    Pow2Constants();
    Pow2Add(128 - n, n);
    WrapProduct(x, Pow2(128 - n), Pow2(n));
  }

  /** With m * p == 2^128, multiplying by p and wrapping keeps x mod m. */
  lemma WrapProduct(x: nat, m: nat, p: nat)
    requires m >= 1 && p >= 1 && m * p == TWO_128
    ensures (x * p) % TWO_128 == (x % m) * p
    ensures x * p < TWO_128 ==> (x * p) % TWO_128 == x * p
  {
    var q := x / m;
    var r := x % m;
    assert x * p == (m * q) * p + r * p;
    assert (m * q) * p == TWO_128 * q;
    MulMonotone(p, r, m - 1);
    assert (m - 1) * p == TWO_128 - p;
    DivModUnique(x * p, TWO_128, q, r * p);
    if x * p < TWO_128 {
      DivModUnique(x * p, TWO_128, 0, x * p);
    }
  }

  /** `a + b` on `uint128_t`, wrapping modulo 2^128. */
  function Add128(a: Uint128, b: Uint128): (r: Uint128)
    ensures a + b < TWO_128 ==> r == a + b
    ensures a + b >= TWO_128 ==> r == a + b - TWO_128
  {
    (a + b) % TWO_128
  }

  /** Bitwise `&` of two naturals, one bit at a time from the lowest. */
  function BitAnd(a: nat, b: nat): nat
    decreases a
  {
    if a == 0 || b == 0 then 0
    else 2 * BitAnd(a / 2, b / 2) + (if a % 2 == 1 && b % 2 == 1 then 1 else 0)
  }

  /** A bitwise `&` never exceeds either operand. */
  lemma {:induction false} BitAndBound(a: nat, b: nat)
    ensures BitAnd(a, b) <= a && BitAnd(a, b) <= b
    decreases a
  {
    if a != 0 && b != 0 {
      BitAndBound(a / 2, b / 2);
    }
  }

  /** Masking with 2^k - 1 keeps exactly the low k bits. */
  lemma {:induction false} BitAndLowMask(k: nat, b: nat)
    ensures BitAnd(Pow2(k) - 1, b) == b % Pow2(k)
    decreases k
  {
    if k > 0 && b != 0 {
      calc {
        BitAnd(Pow2(k) - 1, b);
      == { HalfMask(k); BitAndOddStep(Pow2(k) - 1, b); }
        2 * BitAnd(Pow2(k - 1) - 1, b / 2) + b % 2;
      == { BitAndLowMask(k - 1, b / 2); }
        2 * ((b / 2) % Pow2(k - 1)) + b % 2;
      == { ModDouble(b, k); }
        b % Pow2(k);
      }
    } else if b == 0 {
      DivModUnique(0, Pow2(k), 0, 0);
    } else {
      DivModUnique(b, 1, b, 0);
    }
  }

  lemma BitAndOddStep(m: nat, b: nat)
    requires m % 2 == 1
    ensures BitAnd(m, b) == 2 * BitAnd(m / 2, b / 2) + b % 2
  {
  }

  /** Halving 2^k - 1 drops its lowest bit, which is set. */
  lemma HalfMask(k: nat)
    requires k > 0
    ensures Pow2(k) - 1 > 0
    ensures (Pow2(k) - 1) / 2 == Pow2(k - 1) - 1 && (Pow2(k) - 1) % 2 == 1
  {
    DivModUnique(Pow2(k) - 1, 2, Pow2(k - 1) - 1, 1);
  }

  /** b mod 2^k is twice (b/2 mod 2^(k-1)) plus the lowest bit of b. */
  lemma ModDouble(b: nat, k: nat)
    requires k > 0
    ensures b % Pow2(k) == 2 * ((b / 2) % Pow2(k - 1)) + b % 2
  {
    var p := Pow2(k - 1);
    var q := (b / 2) / p;
    var r := (b / 2) % p;
    assert b / 2 == p * q + r;
    assert b == (2 * p) * q + (2 * r + b % 2);
    DivModUnique(b, 2 * p, q, 2 * r + b % 2);
  }

  lemma DivModUnique(x: int, d: nat, q: int, r: nat)
    requires d >= 1 && r < d && x == d * q + r
    ensures x / d == q && x % d == r
  {
    var q' := x / d;
    var r' := x % d;
    assert d * q' + r' == d * q + r;
    if q' < q {
      MulMonotone(d, q' + 1, q);
    } else if q' > q {
      MulMonotone(d, q + 1, q');
    }
  }

  lemma MulMonotone(d: nat, a: int, b: int)
    requires a <= b
    ensures d * a <= d * b
  {
  }

  /** Reducing modulo a*b and then modulo a is reducing modulo a. */
  lemma ModModDivisor(x: int, a: nat, b: nat)
    requires a >= 1 && b >= 1
    ensures (x % (a * b)) % a == x % a
  {
    var q := x / (a * b);
    var r := x % (a * b);
    assert x == (a * b) * q + r;
    assert x == a * (b * q + r / a) + r % a;
    DivModUnique(x, a, b * q + r / a, r % a);
  }

  /** The remainder of a sum is the remainder of the sum of remainders. */
  lemma ModAdd(x: int, y: int, m: nat)
    requires m >= 1
    ensures (x + y) % m == (x % m + y % m) % m
  {
    var s := x % m + y % m;
    assert x + y == m * (x / m + y / m + s / m) + s % m;
    DivModUnique(x + y, m, x / m + y / m + s / m, s % m);
  }

  /** A bitwise `&` does not depend on the order of its operands. */
  lemma {:induction false} BitAndCommutes(a: nat, b: nat)
    ensures BitAnd(a, b) == BitAnd(b, a)
    decreases a
  {
    if a != 0 && b != 0 {
      BitAndCommutes(a / 2, b / 2);
    }
  }

  /** `x >> k`. */
  function ShiftRight(x: nat, k: nat): nat
  {
    if k == 0 then x else ShiftRight(x / 2, k - 1)
  }

  /** The low k bits of x, rebuilt one bit at a time. */
  function LowBits(x: nat, k: nat): nat
  {
    if k == 0 then 0 else 2 * LowBits(x / 2, k - 1) + x % 2
  }

  /** Shifting right by k and keeping the low k bits are division and
      remainder by 2^k. */
  lemma {:induction false} ShiftRightLowBits(x: nat, k: nat)
    ensures ShiftRight(x, k) == x / Pow2(k) && LowBits(x, k) == x % Pow2(k)
    decreases k
  {
    if k == 0 {
      DivModUnique(x, 1, x, 0);
    } else {
      ShiftRightLowBits(x / 2, k - 1);
      DivModStep(x, Pow2(k - 1), ShiftRight(x / 2, k - 1), LowBits(x / 2, k - 1));
    }
  }

  /** If x/2 is q*s + l with l < q, then x is 2q*s + (2l + x%2). */
  lemma DivModStep(x: nat, q: nat, s: nat, l: nat)
    requires q >= 1 && s == (x / 2) / q && l == (x / 2) % q
    ensures x / (2 * q) == s && x % (2 * q) == 2 * l + x % 2
  {
    var h := x / 2;
    assert h == q * s + l;
    assert x == 2 * h + x % 2;
    assert 2 * (q * s) == (2 * q) * s;
    DivModUnique(x, 2 * q, s, 2 * l + x % 2);
  }

  /** Halving an `&` is the `&` of the halves; its lowest bit is the `&` of
      the lowest bits. */
  lemma BitAndHalf(a: nat, b: nat)
    ensures BitAnd(a, b) / 2 == BitAnd(a / 2, b / 2)
    ensures BitAnd(a, b) % 2 == (if a % 2 == 1 && b % 2 == 1 then 1 else 0)
  {
    if a == 0 || b == 0 {
      assert a / 2 == 0 || b / 2 == 0;
      assert BitAnd(a / 2, b / 2) == 0;
    }
  }

  /** `(a & b) >> k == (a >> k) & (b >> k)`. */
  lemma {:induction false} BitAndShiftRight(a: nat, b: nat, k: nat)
    ensures ShiftRight(BitAnd(a, b), k) == BitAnd(ShiftRight(a, k), ShiftRight(b, k))
    decreases k
  {
    if k > 0 {
      BitAndHalf(a, b);
      BitAndShiftRight(a / 2, b / 2, k - 1);
    }
  }

  /** The low k bits of `a & b` are the `&` of the low k bits of a and b. */
  lemma {:induction false} BitAndLowBits(a: nat, b: nat, k: nat)
    ensures LowBits(BitAnd(a, b), k) == BitAnd(LowBits(a, k), LowBits(b, k))
    decreases k
  {
    if k > 0 {
      BitAndHalf(a, b);
      BitAndLowBits(a / 2, b / 2, k - 1);
      var la := LowBits(a, k);
      var lb := LowBits(b, k);
      BitAndHalf(la, lb);
      assert la / 2 == LowBits(a / 2, k - 1) && la % 2 == a % 2;
      assert lb / 2 == LowBits(b / 2, k - 1) && lb % 2 == b % 2;
    }
  }

  /** A bitwise `&` works separately on the bits from 2^k up and on those
      below: `a & b == ((a >> k) & (b >> k)) * 2^k + (low k bits of a & of b)`. */
  lemma BitAndSplit(a: nat, b: nat, k: nat)
    ensures BitAnd(a, b) == BitAnd(ShiftRight(a, k), ShiftRight(b, k)) * Pow2(k)
                            + BitAnd(LowBits(a, k), LowBits(b, k))
  {
    var c := BitAnd(a, b);
    ShiftRightLowBits(c, k);
    BitAndShiftRight(a, b, k);
    BitAndLowBits(a, b, k);
    Recompose(c, Pow2(k));
  }

  /** Division and remainder by p put c back together. */
  lemma Recompose(c: nat, p: nat)
    requires p >= 1
    ensures c == (c / p) * p + c % p
  {
  }

  /** `a & b` on `uint128_t`. */
  function And128(a: Uint128, b: Uint128): (r: Uint128)
    ensures r <= a && r <= b
  {
    BitAndBound(a, b);
    BitAnd(a, b)
  }
}
