/** Shift sequences that stand for multiplication, division and remainder by constants. */
module Shifts {
  import opened Word

  lemma Pow2Range(k: nat)
    requires k <= 30
    ensures 1 <= Pow2(k) <= 0x4000_0000
  {
    Pow2Mono(k, 30);
    Pow2Values();
  }

  /** The sign word shifted right logically is the bias 2^k - 1 of a negative dividend. */
  lemma Bias(x: i32, k: nat)
    requires k <= 30
    ensures Srl(Sra(x, 31), 32 - k) == if x < 0 then Pow2(k) - 1 else 0
  {
    Pow2Values();
    Pow2Range(k);
    SignWord(x);
    if x < 0 {
      Pow2Add(k, 32 - k);
      AllOnes(Pow2(k), Pow2(32 - k));
    } else {
      FloorBounds(0, Pow2(32 - k));
    }
  }

  lemma SignWord(x: i32)
    ensures Sra(x, 31) == if x < 0 then -1 else 0
  {
    Pow2Values();
  }

  lemma AllOnes(a: int, b: int)
    requires a >= 1 && b >= 1 && a * b == TWO32
    ensures (TWO32 - 1) / b == a - 1
  {
    DivModSplit(TWO32 - 1, b);
    var q := (TWO32 - 1) / b;
    if q >= a { MulMono(a, q, b); }
    if q <= a - 2 { MulMono(q, a - 2, b); Distribute(a, 2, b); }
  }

  /** Biased arithmetic shift is division rounded toward zero, for every dividend. */
  lemma BiasedShift(x: i32, k: nat)
    requires k <= 30
    ensures Sra(Wrap(x + Srl(Sra(x, 31), 32 - k)), k) == TruncDiv(x, Pow2(k))
  {
    Bias(x, k);
    Pow2Range(k);
    BiasedQuotient(x, Pow2(k));
  }

  lemma BiasedQuotient(x: i32, p: int)
    requires 1 <= p <= 0x4000_0000
    ensures Wrap(x + (if x < 0 then p - 1 else 0)) / p == TruncDiv(x, p)
  {
    var y: int := x;
    if y < 0 { FloorIsCeiling(-y, p); }
  }

  lemma FloorIsCeiling(y: int, p: int)
    requires p >= 1 && y > 0
    ensures (-y + p - 1) / p == -(y / p)
  {
    DivModSplit(y, p);
    DivModSplit(-y + p - 1, p);
    var a, b := (-y + p - 1) / p, y / p;
    assert p * (a + b) == p * a + p * b;
    if a + b >= 1 { MulMono(1, a + b, p); }
    if a + b <= -1 { MulMono(a + b, -1, p); }
  }

  /** Shifting the quotient back and subtracting is the remainder. */
  lemma BiasedRemainder(x: i32, k: nat)
    requires k <= 30
    ensures Wrap(x - Sll(TruncDiv(x, Pow2(k)) as i32, k)) == TruncRem(x, Pow2(k))
  {
    Pow2Range(k);
    TruncDivRange(x, Pow2(k));
    var q := TruncDiv(x, Pow2(k));
    WrapAddWrap(q * Pow2(k), x);
    TruncDivRemainder(x, Pow2(k));
  }

  /** Masking keeps the remainder of a non-negative dividend. */
  lemma {:induction false} MaskIsRemainder(x: nat, k: nat)
    ensures BitAnd(x, Pow2(k) - 1) == x % Pow2(k)
  {
    if k == 0 {
    } else if x == 0 {
      DivModUnique(0, Pow2(k), 0, 0);
    } else {
      assert Pow2(k) == 2 * Pow2(k - 1);
      hide Pow2, BitAnd;
      MaskIsRemainder(x / 2, k - 1);
      MaskStep(x, Pow2(k - 1));
    }
  }

  lemma MaskStep(x: nat, p: int)
    requires p >= 1 && BitAnd(x / 2, p - 1) == (x / 2) % p
    ensures BitAnd(x, 2 * p - 1) == x % (2 * p)
  {
    hide BitAnd;
    assert (2 * p - 1) / 2 == p - 1 && (2 * p - 1) % 2 == 1;
    BitAndOdd(x, 2 * p - 1);
    HalfRemainder(x, x / 2, p);
  }

  lemma BitAndOdd(a: nat, b: nat)
    requires b % 2 == 1
    ensures BitAnd(a, b) == a % 2 + 2 * BitAnd(a / 2, b / 2)
  {
  }

  lemma HalfRemainder(x: nat, h: nat, p: int)
    requires p >= 1 && h == x / 2
    ensures x % (2 * p) == x % 2 + 2 * (h % p)
  {
    DivModSplit(h, p);
    var q := h / p;
    Doubling(p, q);
    DivModUnique(x, 2 * p, q, x % 2 + 2 * (h % p));
  }

  lemma Doubling(p: int, q: int)
    ensures (2 * p) * q == 2 * (p * q)
  {
  }

  /** The low k bits, extracted by two shifts. */
  lemma LowBits(x: i32, k: nat)
    requires 1 <= k <= 30
    ensures Srl(Sll(x, 32 - k), 32 - k) == x % Pow2(k)
  {
    Pow2Add(k, 32 - k);
    Pow2Values();
    Pow2Range(k);
    LowBitsArith(x, Pow2(k), Pow2(32 - k));
  }

  lemma LowBitsArith(x: i32, a: int, b: int)
    requires 1 <= a <= 0x4000_0000 && b >= 1 && a * b == TWO32
    ensures Unsigned(Wrap(x * b)) / b == x % a
  {
    var q, r := x / a, x % a;
    LowProduct(x, q, r, a, b);
    MulMono(r, a - 1, b);
    MulMono(0, r, b);
    Distribute(a, 1, b);
    DivModUnique(x * b, TWO32, q, r * b);
    UnsignedWrap(x * b);
    DivModUnique(r * b, b, r, 0);
  }

  lemma UnsignedWrap(x: int)
    ensures Unsigned(Wrap(x)) == x % TWO32
  {
  }

  lemma LowProduct(x: int, q: int, r: int, a: int, b: int)
    requires x == a * q + r && a * b == TWO32
    ensures x * b == TWO32 * q + r * b
  {
    Distribute(a * q, r, b);
    assert (a * q) * b == (a * b) * q;
  }
}
