/** The multiplier sequence on machine words: signed multiplier, high product, correction, shift. */
module MagicWords {
  import opened Word
  import opened Magic

  /** High product with the signed multiplier, corrected when the multiplier exceeds 31 bits. */
  function CorrectedHigh(x: i32, magic: int): i32
  {
    var m := Wrap(magic);
    if m < 0 then Wrap(Mulh(x, m) + x) else Mulh(x, m)
  }

  function ShiftedHigh(x: i32, magic: int, shift: nat): i32
  {
    if shift > 0 then Sra(CorrectedHigh(x, magic), shift) else CorrectedHigh(x, magic)
  }

  lemma HighIsFloor(x: i32, magic: int)
    requires 0 < magic < TWO32
    ensures CorrectedHigh(x, magic) == (x * magic) / TWO32
  {
    if magic >= TWO31 {
      Distribute(magic, TWO32, x);
      DivShift(x * magic, x, TWO32);
      HighRange(x, magic);
    }
  }

  lemma DivShift(a: int, k: int, d: int)
    requires d > 0
    ensures (a - k * d) / d == a / d - k
  {
    DivModSplit(a, d);
    Distribute(a / d, k, d);
    DivModUnique(a - k * d, d, a / d - k, a - d * (a / d));
  }

  lemma HighRange(x: i32, magic: int)
    requires 0 < magic < TWO32
    ensures FitsInt32((x * magic) / TWO32)
  {
    DivModSplit(x * magic, TWO32);
    MulMono(0, Abs(x), magic);
    MulMono(magic, TWO32 - 1, Abs(x));
    if x < 0 { Negate(x, -(x as int), magic); }
  }

  lemma DivDiv(a: int, b: int, c: int)
    requires b > 0 && c > 0
    ensures b * c > 0 && (a / b) / c == a / (b * c)
  {
    MulMono(1, b, c);
    DivModSplit(a, b);
    var m := a / b;
    DivModSplit(m, c);
    var q := m / c;
    var r := (a - b * m) + b * (m - c * q);
    NestedSplit(a, b, c, m, q);
    MulMono(m - c * q, c - 1, b);
    MulMono(0, m - c * q, b);
    Distribute(c, 1, b);
    DivModUnique(a, b * c, q, r);
  }

  lemma NestedSplit(a: int, b: int, c: int, m: int, q: int)
    ensures a == q * (b * c) + ((a - b * m) + b * (m - c * q))
  {
    assert b * (m - c * q) == b * m - b * (c * q);
    assert b * (c * q) == q * (b * c);
  }

  lemma ShiftedIsFloor(x: i32, magic: int, shift: nat)
    requires 0 < magic < TWO32
    ensures ShiftedHigh(x, magic, shift) == HighProduct(x, magic, shift + 32)
  {
    HighIsFloor(x, magic);
    Pow2Values();
    Pow2Add(32, shift);
    DivDiv(x * magic, TWO32, Pow2(shift));
    assert Pow2(0) == 1;
  }

  function WithSign(q: i32, x: i32, nonnegative: bool): i32
  {
    if nonnegative then q else Wrap(q - Sra(x, 31))
  }

  /** The whole sequence is the truncating quotient; the sign fix may be dropped for a dividend
      known to be non-negative. */
  lemma WordQuotient(d: int, magic: int, shift: nat, x: i32, nonnegative: bool)
    requires HasMagic(d) && IsMagic(d, magic, shift) && 0 < magic < TWO32
    requires nonnegative ==> x >= 0
    ensures WithSign(ShiftedHigh(x, magic, shift), x, nonnegative) == TruncDiv(x, d)
  {
    ShiftedIsFloor(x, magic, shift);
    MagicQuotient(d, magic, shift, x);
    Pow2Values();
    TruncDivRange(x, d);
  }

  function Negated(q: i32, negative: bool): i32 { if negative then Wrap(0 - q) else q }

  /** For a divisor of either sign the corrected quotient is what `div` computes. */
  lemma SignedDivisor(imm: i32, q: i32, x: i32)
    requires imm != INT_MIN && HasMagic(Abs(imm)) && q == TruncDiv(x, Abs(imm))
    ensures Negated(q, imm < 0) == RvDiv(x, imm)
    ensures Wrap(x - Wrap(Negated(q, imm < 0) * imm)) == RvRem(x, imm)
  {
    DivisorBits(Abs(imm));
    TruncDivRange(x, imm);
    var t := TruncDiv(x, imm);
    FloorBounds(Abs(x), Abs(imm));
    assert t == if imm < 0 then -q else q;
    WrapAddWrap(t * imm, x);
    TruncDivRemainder(x, imm);
  }
}
