/** 32-bit machine words as mathematical integers with explicit wrap-around.
    RISC-V Unprivileged ISA 20191213, section 2.4 (integer computation), section 7.1 (mulh)
    and section 7.2 (div and rem). */
module Word {

  const TWO31: int := 0x8000_0000
  const TWO32: int := 0x1_0000_0000
  const INT_MIN: int := -0x8000_0000
  const INT_MAX: int := 0x7fff_ffff

  type i32 = x: int | -0x8000_0000 <= x < 0x8000_0000

  predicate FitsInt32(x: int) { INT_MIN <= x <= INT_MAX }

  /** Two's-complement wrap to 32 bits. */
  function Wrap(x: int): (r: i32)
    ensures FitsInt32(x) ==> r == x
  {
    var m := x % TWO32;
    if m < TWO31 then m else m - TWO32
  }

  /** The same 32 bits read as an unsigned number. */
  function Unsigned(x: i32): (u: int)
    ensures 0 <= u < TWO32 && Wrap(u) == x
  {
    if x < 0 then x + TWO32 else x
  }

  lemma ZeroDifference(a: int, b: int)
    requires FitsInt32(a) && FitsInt32(b)
    ensures Wrap(a - b) == 0 <==> a == b
  {
  }

  /** Two integers with the same low 32 bits wrap to the same word. */
  lemma WrapCongruent(x: int, y: int, k: int)
    requires x == y + k * TWO32
    ensures Wrap(x) == Wrap(y)
  {
    assert x % TWO32 == y % TWO32;
  }

  function WrapCarry(x: int): int { (x - Wrap(x)) / TWO32 }

  lemma WrapSplit(x: int)
    ensures x == Wrap(x) + WrapCarry(x) * TWO32
  {
    assert x == TWO32 * (x / TWO32) + x % TWO32;
  }

  lemma WrapAddWrap(a: int, b: int)
    ensures Wrap(Wrap(a) + b) == Wrap(a + b)
    ensures Wrap(Wrap(a) - b) == Wrap(a - b)
    ensures Wrap(b - Wrap(a)) == Wrap(b - a)
  {
    WrapSplit(a);
    var k := WrapCarry(a);
    WrapCongruent(a + b, Wrap(a) + b, k);
    WrapCongruent(a - b, Wrap(a) - b, k);
    WrapCongruent(b - a, b - Wrap(a), -k);
  }

  function Pow2(n: nat): (p: int)
    ensures p >= 1
  {
    if n == 0 then 1 else 2 * Pow2(n - 1)
  }

  lemma {:induction false} Pow2Add(m: nat, n: nat)
    ensures Pow2(m + n) == Pow2(m) * Pow2(n)
  {
    if m > 0 {
      Pow2Add(m - 1, n);
      assert m + n - 1 == m - 1 + n;
      MulAssoc(2, Pow2(m - 1), Pow2(n));
    }
  }

  lemma MulAssoc(a: int, b: int, c: int)
    ensures a * (b * c) == (a * b) * c
  {
  }

  lemma {:induction false} Pow2Mono(m: nat, n: nat)
    requires m <= n
    ensures Pow2(m) <= Pow2(n)
    decreases n
  {
    if m < n { Pow2Mono(m, n - 1); }
  }

  lemma Pow2Values()
    ensures Pow2(0) == 1 && Pow2(30) == 0x4000_0000 && Pow2(31) == TWO31 && Pow2(32) == TWO32
  {
    assert Pow2(8) == 256;
    Pow2Add(8, 8);
    Pow2Add(16, 14);
    assert Pow2(14) == 16384;
    assert Pow2(31) == 2 * Pow2(30);
  }

  lemma Distribute(a: int, b: int, c: int)
    ensures (a + b) * c == a * c + b * c
    ensures (a - b) * c == a * c - b * c
  {
  }

  // --------------------------------------------------------------------------
  // Instruction semantics on words
  // --------------------------------------------------------------------------

  /** Arithmetic right shift rounds toward minus infinity. */
  function Sra(x: i32, k: nat): (r: i32)
  {
    var p := Pow2(k);
    FloorBounds(x, p);
    x / p
  }

  lemma FloorBounds(x: int, p: int)
    requires p >= 1
    ensures p * (x / p) <= x < p * (x / p) + p
    ensures x >= 0 ==> 0 <= x / p <= x
    ensures x < 0 ==> x <= x / p < 0
  {
    DivModSplit(x, p);
    QuotientSign(x, x / p, p);
  }

  lemma DivModSplit(x: int, p: int)
    requires p >= 1
    ensures p * (x / p) <= x < p * (x / p) + p
  {
    assert x == p * (x / p) + x % p;
  }

  lemma QuotientSign(x: int, q: int, p: int)
    requires p >= 1 && p * q <= x < p * q + p
    ensures x >= 0 ==> 0 <= q <= x
    ensures x < 0 ==> x <= q < 0
  {
    if q >= 1 { MulGe(p, q); }
    if q <= -1 { MulGe(p, -q); assert p * q == -(p * -q); }
  }

  lemma MulGe(p: int, q: int)
    requires p >= 1 && q >= 1
    ensures p * q >= q && p * q >= p
  {
    MulMono(1, p, q);
    MulMono(1, q, p);
  }

  lemma MulMono(a: int, b: int, c: int)
    requires a <= b && c >= 0
    ensures a * c <= b * c
  {
  }

  function Srl(x: i32, k: nat): i32
  {
    Wrap(Unsigned(x) / Pow2(k))
  }

  function Sll(x: i32, k: nat): i32
  {
    Wrap(x * Pow2(k))
  }

  /** High word of the signed product. */
  function Mulh(x: i32, y: i32): i32
  {
    MulhRange(x, y);
    (x * y) / TWO32
  }

  lemma MulhRange(x: i32, y: i32)
    ensures FitsInt32((x * y) / TWO32)
  {
    var p := x * y;
    ProductRange(x, y);
    FloorBounds(p, TWO32);
  }

  lemma ProductRange(x: i32, y: i32)
    ensures -0x4000_0000_0000_0000 <= x * y <= 0x4000_0000_0000_0000
  {
    MulMono(Abs(x), TWO31, Abs(y));
    assert TWO31 * Abs(y) <= 0x4000_0000_0000_0000;
    AbsMul(x, y);
  }

  lemma AbsMul(x: int, y: int)
    ensures Abs(x * y) == Abs(x) * Abs(y)
  {
    if x >= 0 && y < 0 { MulNeg(x, -y); }
    if x < 0 && y >= 0 { MulNeg(y, -x); }
  }

  lemma MulNeg(x: int, y: int)
    requires x >= 0 && y >= 0
    ensures x * -y <= 0 && x * -y == -(x * y)
  {
  }

  // --------------------------------------------------------------------------
  // Division
  // --------------------------------------------------------------------------

  /** C and RISC-V division: the quotient is rounded toward zero. */
  function TruncDiv(a: int, b: int): int
    requires b != 0
  {
    if a >= 0 && b > 0 then a / b
    else if a >= 0 then -(a / (-b))
    else if b > 0 then -((-a) / b)
    else (-a) / (-b)
  }

  function TruncRem(a: int, b: int): int
    requires b != 0
  {
    a - b * TruncDiv(a, b)
  }

  function Abs(x: int): nat { if x < 0 then -x else x }

  /** The quotient rounded toward zero is the only one whose remainder is smaller than the divisor
      and does not have the sign opposite to the dividend. */
  lemma TruncDivUnique(a: int, b: int, q: int)
    requires b != 0
    ensures q == TruncDiv(a, b) <==>
            Abs(a - b * q) < Abs(b) && (a >= 0 ==> a - b * q >= 0) && (a <= 0 ==> a - b * q <= 0)
  {
    var t := TruncDiv(a, b);
    TruncDivRemainder(a, b);
    if Abs(a - b * q) < Abs(b) && (a >= 0 ==> a - b * q >= 0) && (a <= 0 ==> a - b * q <= 0) {
      SmallMultiple(b, t - q, (a - b * q) - (a - b * t));
    }
  }

  lemma TruncDivRemainder(a: int, b: int)
    requires b != 0
    ensures var r := a - b * TruncDiv(a, b);
            Abs(r) < Abs(b) && (a >= 0 ==> r >= 0) && (a <= 0 ==> r <= 0)
  {
    FloorBounds(Abs(a), Abs(b));
    var q := Abs(a) / Abs(b);
    assert b * TruncDiv(a, b) == if a >= 0 then Abs(b) * q else -(Abs(b) * q);
  }

  lemma SmallMultiple(b: int, k: int, z: int)
    requires b * k == z && Abs(z) < Abs(b)
    ensures k == 0
  {
    AbsMul(b, k);
    if k != 0 { MulMono(1, Abs(k), Abs(b)); }
  }

  /** Quotient and remainder are the only pair that recombines to the dividend. */
  lemma DivModUnique(x: int, d: int, q: int, r: int)
    requires d > 0 && x == q * d + r && 0 <= r < d
    ensures x % d == r && x / d == q
  {
    DivModSplit(x, d);
    SmallMultiple(d, x / d - q, r - x % d);
  }

  /** RISC-V `div`: division by zero gives -1, the one overflow gives the dividend. */
  function RvDiv(a: i32, b: i32): (q: i32)
  {
    if b == 0 then -1
    else if a == INT_MIN && b == -1 then INT_MIN
    else
      TruncDivRange(a, b);
      TruncDiv(a, b)
  }

  /** RISC-V `rem`: remainder by zero gives the dividend, the one overflow gives 0. */
  function RvRem(a: i32, b: i32): (r: i32)
  {
    if b == 0 then a
    else if a == INT_MIN && b == -1 then 0
    else
      TruncDivRange(a, b);
      TruncDivUnique(a, b, TruncDiv(a, b));
      TruncRem(a, b)
  }

  lemma TruncDivRange(a: i32, b: i32)
    requires b != 0 && !(a == INT_MIN && b == -1)
    ensures FitsInt32(TruncDiv(a, b))
  {
    FloorBounds(Abs(a), Abs(b));
    if a == INT_MIN && b < -1 {
      var q := Abs(a) / Abs(b);
      MulMono(2, Abs(b), q);
    }
  }

  // --------------------------------------------------------------------------
  // Powers of two, as the bit trick n & (n - 1) recognises them
  // --------------------------------------------------------------------------

  /** Bitwise conjunction of two non-negative numbers. */
  function BitAnd(a: nat, b: nat): nat
  {
    if a == 0 || b == 0 then 0
    else (if a % 2 == 1 && b % 2 == 1 then 1 else 0) + 2 * BitAnd(a / 2, b / 2)
  }

  predicate IsPowerOfTwo(n: nat) { BitAnd(n, if n == 0 then 0 else n - 1) == 0 && n > 0 }

  /** Number of trailing zero bits of a power of two. */
  function Ctz(n: nat): (k: nat)
    requires n > 0
  {
    if n % 2 == 1 then 0 else 1 + Ctz(n / 2)
  }

  lemma {:induction false} BitAndSelf(n: nat)
    ensures BitAnd(n, n) == n
  {
    if n > 0 { BitAndSelf(n / 2); }
  }

  /** n & (n - 1) is zero exactly for the powers of two, and then n is two to its trailing zeros. */
  lemma {:induction false} PowerOfTwoTest(n: nat)
    requires n > 0
    ensures IsPowerOfTwo(n) <==> n == Pow2(Ctz(n))
  {
    if n % 2 == 1 {
      assert (n - 1) / 2 == n / 2 && (n - 1) % 2 == 0;
      BitAndSelf(n / 2);
    } else {
      assert (n - 1) / 2 == n / 2 - 1 && n / 2 > 0;
      PowerOfTwoTest(n / 2);
    }
  }

  lemma {:induction false} CtzPow2(k: nat)
    ensures Ctz(Pow2(k)) == k && IsPowerOfTwo(Pow2(k))
  {
    if k > 0 {
      CtzPow2(k - 1);
      assert Pow2(k) / 2 == Pow2(k - 1);
    }
    PowerOfTwoTest(Pow2(k));
  }

  lemma WordPower(m: i32)
    requires m > 1 && IsPowerOfTwo(m)
    ensures m == Pow2(Ctz(m)) && 1 <= Ctz(m) <= 30
  {
    PowerOfTwoTest(m);
    var k: nat :| m == Pow2(k);
    CtzPow2(k);
    Pow2Values();
    if k >= 31 { Pow2Mono(31, k); }
  }
}
