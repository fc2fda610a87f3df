/** Division by a constant through a multiplication: the search for the multiplier and the shift,
    and the proof that the high product, shifted and corrected by the sign, is the quotient. */
module Magic {
  import opened Word

  /** The largest dividend below 2^31 that leaves remainder ad - 1. */
  function Anc(ad: int): int
    requires ad > 0
  {
    TWO31 - 1 - TWO31 % ad
  }

  function Delta(ad: int, p: nat): int
    requires ad > 0
  {
    ad - Pow2(p) % ad
  }

  /** The precision p is high enough for every 32-bit dividend. */
  predicate Enough(ad: int, p: nat)
    requires ad > 0
  {
    Pow2(p) > Anc(ad) * Delta(ad, p)
  }

  predicate HasMagic(d: int) { 2 <= d <= INT_MAX && !IsPowerOfTwo(d) }

  /** The pair the search must return: the first sufficient precision from 32 on, and the
      multiplier rounded up at that precision. */
  ghost predicate IsMagic(d: int, magic: int, shift: nat)
    requires HasMagic(d)
  {
    && magic * d == Pow2(shift + 32) + Delta(d, shift + 32)
    && Enough(d, shift + 32)
    && (forall p: nat :: 32 <= p < shift + 32 ==> !Enough(d, p))
  }

  /** The first sufficient precision from p on, when one is known to exist. */
  function FirstEnough(d: int, p: nat, top: nat): (q: nat)
    requires d > 0
    ensures p <= q
    decreases top - p
  {
    if Enough(d, p) || p >= top then p else FirstEnough(d, p + 1, top)
  }

  function MagicShift(d: int): nat
    requires d > 0
  {
    FirstEnough(d, 32, 31 + BitLen(d)) - 32
  }

  function Multiplier(d: int): int
    requires d > 0
  {
    (Pow2(MagicShift(d) + 32) + Delta(d, MagicShift(d) + 32)) / d
  }

  lemma {:induction false} FirstEnoughIs(d: int, p: nat, top: nat, q: nat)
    requires d > 0 && p <= q <= top && Enough(d, q)
    requires forall k: nat :: p <= k < q ==> !Enough(d, k)
    ensures FirstEnough(d, p, top) == q
    decreases q - p
  {
    if p < q { FirstEnoughIs(d, p + 1, top, q); }
  }

  /** The specification determines the pair. */
  lemma MagicUnique(d: int, magic: int, shift: nat)
    requires HasMagic(d) && IsMagic(d, magic, shift) && shift + 32 <= 31 + BitLen(d)
    ensures shift == MagicShift(d) && magic == Multiplier(d)
  {
    FirstEnoughIs(d, 32, 31 + BitLen(d), shift + 32);
    DivModUnique(magic * d, d, magic, 0);
  }

  function U32(x: int): (r: int)
    ensures 0 <= r < TWO32
    ensures 0 <= x < TWO32 ==> r == x
  {
    x % TWO32
  }

  function BitLen(n: nat): nat { if n == 0 then 0 else 1 + BitLen(n / 2) }

  lemma {:induction false} BitLenBounds(n: nat)
    requires n > 0
    ensures BitLen(n) >= 1 && Pow2(BitLen(n) - 1) <= n < Pow2(BitLen(n))
  {
    if n > 1 { BitLenBounds(n / 2); }
  }

  /** A divisor that is not a power of two lies strictly between two powers. */
  lemma DivisorBits(d: int)
    requires HasMagic(d)
    ensures 2 <= BitLen(d) <= 31
    ensures Pow2(BitLen(d) - 1) < d < Pow2(BitLen(d))
    ensures d >= 3
  {
    var l := BitLen(d);
    BitLenBounds(d);
    CtzPow2(l - 1);
    CtzPow2(1);
    assert Pow2(1) == 2;
    Pow2Values();
    if l > 31 { Pow2Mono(31, l - 1); }
  }

  lemma AncBounds(d: int)
    requires d >= 3 && d <= INT_MAX
    ensures 2 <= Anc(d) < TWO31
    ensures Anc(d) >= d - 1
    ensures Anc(d) + 1 == d * (TWO31 / d)
    ensures TWO31 - Anc(d) == TWO31 % d + 1
  {
    DivModSplit(TWO31, d);
    PositiveQuotient(d, TWO31 / d);
  }

  lemma PositiveQuotient(d: int, q: int)
    requires d <= INT_MAX && d > 0 && TWO31 < d * q + d
    ensures d * q >= d
  {
    if q <= 0 { MulMono(q, 0, d); }
    MulMono(1, q, d);
  }

  /** At precision 31 + (bits of d) the search is certain to stop. */
  lemma EnoughAtTop(d: int)
    requires HasMagic(d)
    ensures Enough(d, 31 + BitLen(d))
  {
    DivisorBits(d);
    AncBounds(d);
    Pow2Values();
    var l := BitLen(d);
    Pow2Add(31, l);
    ProductBelow(Anc(d), Delta(d, 31 + l), d, Pow2(l));
  }

  lemma ProductBelow(anc: int, delta: int, d: int, t: int)
    requires 0 < anc < TWO31 && delta <= d < t && 0 < d
    ensures anc * delta < TWO31 * t
  {
    MulMono(delta, t - 1, anc);
    MulMono(anc, TWO31, t);
    Distribute(t, 1, anc);
  }

  /** The upper quotient never leaves 32 bits before or at that precision. */
  lemma QuotientFits(d: int, p: nat, q: int, r: int)
    requires HasMagic(d) && p <= 31 + BitLen(d)
    requires q * d + r == Pow2(p) && 0 <= r < d
    ensures 0 <= q < TWO32 - 1
  {
    DivisorBits(d);
    Pow2Values();
    Pow2Mono(p, 31 + BitLen(d));
    Pow2Add(32, BitLen(d) - 1);
    Pow2Mono(BitLen(d) - 1, 30);
    QuotientBelow(q, r, d, Pow2(BitLen(d) - 1), Pow2(p));
  }

  lemma QuotientBelow(q: int, r: int, d: int, h: int, t: int)
    requires 0 < h < d && h <= 0x4000_0000 && 0 <= r < d && q * d + r == t
    requires 0 <= t <= TWO32 * h
    ensures 0 <= q < TWO32 - 1
  {
    if q >= TWO32 - 1 {
      MulMono(TWO32 - 1, q, d);
      MulMono(h + 1, d, TWO32 - 1);
    }
    if q < 0 { MulMono(q, -1, d); }
  }

  lemma DoubleQuotient(q: int, r: int, d: int, p: nat, q': int, r': int)
    requires q * d + r == Pow2(p)
    requires 2 * r < d ==> q' == 2 * q && r' == 2 * r
    requires 2 * r >= d ==> q' == 2 * q + 1 && r' == 2 * r - d
    ensures q' * d + r' == Pow2(p + 1)
  {
    assert (2 * q) * d == 2 * (q * d);
    assert (2 * q + 1) * d == 2 * (q * d) + d;
  }

  /** The exit test of the search is the comparison of 2^p with anc * delta. */
  lemma ExitTest(d: int, p: nat, q1: int, r1: int, q2: int, r2: int)
    requires d >= 3 && d <= INT_MAX
    requires q1 * Anc(d) + r1 == Pow2(p) && 0 <= r1 < Anc(d)
    requires q2 * d + r2 == Pow2(p) && 0 <= r2 < d
    ensures Delta(d, p) == d - r2
    ensures Enough(d, p) <==> !(q1 < d - r2 || (q1 == d - r2 && r1 == 0))
  {
    DivModUnique(Pow2(p), d, q2, r2);
    AncBounds(d);
    QuotientCompare(q1, r1, d - r2, Anc(d), Pow2(p));
  }

  lemma QuotientCompare(q: int, r: int, delta: int, anc: int, t: int)
    requires anc > 0 && q * anc + r == t && 0 <= r < anc
    ensures t > anc * delta <==> q > delta || (q == delta && r > 0)
  {
    if q < delta {
      MulMono(q + 1, delta, anc);
      Distribute(q, 1, anc);
    } else if q > delta {
      MulMono(delta + 1, q, anc);
      Distribute(delta, 1, anc);
    }
  }

  lemma HalfFits(d: int, p: nat, q: int, r: int)
    requires HasMagic(d) && p < 31 + BitLen(d)
    requires q * d + r == Pow2(p) && 0 <= r < d
    ensures 0 <= q < TWO31
  {
    var carry := if 2 * r < d then 0 else 1;
    DoubleQuotient(q, r, d, p, 2 * q + carry, 2 * r - carry * d);
    QuotientFits(d, p + 1, 2 * q + carry, 2 * r - carry * d);
  }

  method FirstQuotient(d: int) returns (q: int, r: int)
    requires 2 <= d < TWO31
    ensures q * d + r == Pow2(31) && 0 <= r < d
    ensures 0 <= q < TWO31
  {
    Pow2Values();
    DivModSplit(TWO31, d);
    StartQuotient(d);
    q := TWO31 / d;
    r := U32(TWO31 - q * d);
  }

  /** One doubling of a quotient and remainder of a power of two, on wrapping words. */
  method Doubled(q: int, r: int, d: int, ghost p: nat) returns (q': int, r': int)
    requires 0 < d < TWO31 && 0 <= q < TWO31
    requires q * d + r == Pow2(p) && 0 <= r < d
    ensures q' * d + r' == Pow2(p + 1) && 0 <= r' < d
  {
    q' := U32(q * 2);
    r' := U32(r * 2);
    if r' >= d {
      q' := U32(q' + 1);
      r' := U32(r' - d);
    }
    DoubleQuotient(q, r, d, p, q', r');
  }

  /** The search, on 32-bit unsigned words; the do-while loop runs its body at least once. */
  method ComputeSignedDivMagic(d: i32) returns (ok: bool, magic: int, shift: int)
    ensures ok <==> HasMagic(d)
    ensures ok ==> 0 < magic < TWO32 && 0 <= shift <= 30 && IsMagic(d, magic, shift)
    ensures ok ==> magic == Multiplier(d) && shift == MagicShift(d)
  {
    hide Pow2, BitLen, Enough, Delta, Multiplier, MagicShift, IsMagic;
    magic, shift := 0, 0;
    if d <= 1 || d == INT_MIN { return false, 0, 0; }
    var ad: int := d;
    if BitAnd(ad, ad - 1) == 0 { return false, 0, 0; }
    ghost var top := 31 + BitLen(ad);
    DivisorBits(ad);
    AncBounds(ad);
    EnoughAtTop(ad);
    var anc := U32(TWO31 - 1 - TWO31 % ad);
    var p := 31;
    var q1, r1 := FirstQuotient(anc);
    var q2, r2 := FirstQuotient(ad);
    var again := true;
    while again
      invariant anc == Anc(ad)
      invariant 31 <= p <= top
      invariant q1 * anc + r1 == Pow2(p) && 0 <= r1 < anc
      invariant q2 * ad + r2 == Pow2(p) && 0 <= r2 < ad
      invariant again ==> 0 <= q1 < TWO31 && p < top
      invariant forall k: nat :: 32 <= k < p ==> !Enough(ad, k)
      invariant if p == 31 then again else again == !Enough(ad, p)
      decreases top - p
    {
      HalfFits(ad, p, q2, r2);
      q1, r1 := Doubled(q1, r1, anc, p);
      q2, r2 := Doubled(q2, r2, ad, p);
      p := p + 1;
      var delta := U32(ad - r2);
      ExitTest(ad, p, q1, r1, q2, r2);
      PositiveProduct(q1, anc, r1);
      again := q1 < delta || (q1 == delta && r1 == 0);
    }
    QuotientFits(ad, p, q2, r2);
    ExitTest(ad, p, q1, r1, q2, r2);
    magic := U32(q2 + 1);
    shift := p - 32;
    ok := true;
    PairFound(ad, p, q2, r2);
  }

  lemma PairFound(d: int, p: nat, q: int, r: int)
    requires HasMagic(d) && 32 <= p <= 31 + BitLen(d) && Enough(d, p)
    requires forall k: nat :: 32 <= k < p ==> !Enough(d, k)
    requires q * d + r == Pow2(p) && Delta(d, p) == d - r
    ensures IsMagic(d, q + 1, p - 32) && q + 1 == Multiplier(d) && p - 32 == MagicShift(d)
  {
    hide Pow2, Enough, Delta;
    Distribute(q, 1, d);
    MagicUnique(d, q + 1, p - 32);
  }

  /** The pair exists for every divisor the search accepts. */
  lemma MagicExists(d: int)
    requires HasMagic(d)
    ensures IsMagic(d, Multiplier(d), MagicShift(d))
    ensures 0 < Multiplier(d) < TWO32 && MagicShift(d) <= 30
  {
    hide Pow2;
    DivisorBits(d);
    EnoughAtTop(d);
    FirstEnoughFound(d, 32, 31 + BitLen(d));
    var p := MagicShift(d) + 32;
    UpQuotient(Pow2(p), d);
    QuotientFits(d, p, Pow2(p) / d, Pow2(p) % d);
  }

  lemma UpQuotient(t: int, d: int)
    requires d > 0
    ensures (t / d) * d + t % d == t && 0 <= t % d < d
    ensures (t + d - t % d) / d == t / d + 1
    ensures (t / d + 1) * d == t + d - t % d
  {
    DivModSplit(t, d);
    Distribute(t / d, 1, d);
    DivModUnique(t + d - t % d, d, t / d + 1, 0);
  }

  lemma {:induction false} FirstEnoughFound(d: int, p: nat, top: nat)
    requires d > 0 && p <= top && Enough(d, top)
    ensures p <= FirstEnough(d, p, top) <= top && Enough(d, FirstEnough(d, p, top))
    ensures forall k: nat :: p <= k < FirstEnough(d, p, top) ==> !Enough(d, k)
    decreases top - p
  {
    if !Enough(d, p) { FirstEnoughFound(d, p + 1, top); }
  }

  lemma StartQuotient(anc: int)
    requires 2 <= anc < TWO31
    ensures 0 <= TWO31 / anc < TWO31
  {
    DivModSplit(TWO31, anc);
    var q := TWO31 / anc;
    if q >= TWO31 { MulMono(2, anc, q); }
    FloorBounds(TWO31, anc);
  }

  lemma PositiveProduct(q: int, d: int, r: int)
    requires d > 0 && r < d && q * d + r >= 0
    ensures q >= 0
  {
    if q < 0 { MulMono(q, -1, d); }
  }

  // --------------------------------------------------------------------------
  // The multiplier gives the quotient
  // --------------------------------------------------------------------------

  /** The key bound: the rounding error of the multiplier never carries into the next quotient. */
  lemma ErrorBound(d: int, p: nat, y: int)
    requires HasMagic(d) && p >= 32 && Enough(d, p) && 0 <= y <= TWO31
    ensures y * Delta(d, p) <= (d - y % d) * Pow2(p)
    ensures y < TWO31 ==> y * Delta(d, p) < (d - y % d) * Pow2(p)
  {
    DivisorBits(d);
    AncBounds(d);
    DeltaRange(d, p);
    if y <= Anc(d) {
      DivModSplit(y, d);
      ErrorBelow(d, Anc(d), Delta(d, p), Pow2(p), y, y % d);
    } else {
      AboveAnc(d, y);
      if y - Anc(d) < d {
        ErrorAbove(d, Anc(d), Delta(d, p), Pow2(p), y - Anc(d), y, y % d);
      } else {
        ExactTop(d, p);
        OneTimes(d - y % d, Pow2(p));
      }
    }
  }

  lemma OneTimes(a: int, t: int)
    requires a == 1
    ensures a * t == t
  {
  }

  lemma DeltaRange(d: int, p: nat)
    requires d > 0
    ensures 1 <= Delta(d, p) <= d
  {
  }

  lemma ErrorBelow(d: int, anc: int, delta: int, t: int, y: int, r: int)
    requires 0 <= y <= anc && delta >= 0 && anc * delta < t && 0 <= r < d
    ensures y * delta < (d - r) * t
  {
    MulMono(y, anc, delta);
    MulMono(0, anc, delta);
    MulMono(1, d - r, t);
  }

  lemma ErrorAbove(d: int, anc: int, delta: int, t: int, j: int, y: int, r: int)
    requires 1 <= j < d && d - 1 <= anc && delta >= 0 && anc * delta < t
    requires y == anc + j && r == j - 1
    ensures y * delta < (d - r) * t
  {
    MulMono(j, anc, delta);
    MulMono(0, anc, delta);
    MulMono(1, d - j, t);
    Distribute(anc, j, delta);
    Distribute(d - j, 1, t);
  }

  lemma AboveAnc(d: int, y: int)
    requires 3 <= d <= INT_MAX && Anc(d) < y <= TWO31
    ensures y % d == y - Anc(d) - 1 && 1 <= y - Anc(d) <= d
    ensures y - Anc(d) == d ==> y == TWO31 && TWO31 % d == d - 1
  {
    AncBounds(d);
    assert y == (TWO31 / d) * d + (y - Anc(d) - 1);
    DivModUnique(y, d, TWO31 / d, y - Anc(d) - 1);
  }

  /** When d divides 2^31 + 1, the dividend -2^31 meets the bound with equality or better. */
  lemma ExactTop(d: int, p: nat)
    requires 3 <= d <= INT_MAX && p >= 32 && TWO31 % d == d - 1
    ensures TWO31 * Delta(d, p) <= Pow2(p)
  {
    hide Pow2;
    Pow2Add(31, p - 31);
    Pow2Values();
    UpQuotient(TWO31, d);
    UpQuotient(Pow2(p), d);
    ExactTopArith(d, TWO31 / d + 1, Pow2(p - 31), Pow2(p), Pow2(p) / d, Delta(d, p));
  }

  lemma ExactTopArith(d: int, k: int, e: int, t: int, q: int, delta: int)
    requires d > 0 && e >= 1 && k * d == TWO31 + 1 && t == TWO31 * e
    requires 1 <= delta <= d && t == q * d + d - delta
    ensures TWO31 * delta <= t
  {
    if e >= d {
      MulMono(delta, e, TWO31);
    } else {
      KeSplit(k, d, e);
      Distribute(q + 1, k * e, d);
      Distribute(q, 1, d);
      assert (k * d) * e == t + e;
      SmallMultiple(d, q + 1 - k * e, delta - e);
    }
  }

  lemma KeSplit(k: int, d: int, e: int)
    ensures (k * d) * e == d * (k * e)
  {
  }

  /** The rounded-down product, for a dividend of either sign. */
  function HighProduct(x: int, magic: int, p: nat): int { (x * magic) / Pow2(p) }

  /** Main arithmetic result: adding one to the rounded-down product of a negative dividend gives
      the quotient rounded toward zero, for every 32-bit dividend. */
  lemma MagicQuotient(d: int, magic: int, shift: nat, x: int)
    requires HasMagic(d) && IsMagic(d, magic, shift) && FitsInt32(x)
    ensures HighProduct(x, magic, shift + 32) + (if x < 0 then 1 else 0) == TruncDiv(x, d)
  {
    var p := shift + 32;
    var y := Abs(x);
    ErrorBound(d, p, y);
    DeltaRange(d, p);
    SignedQuotient(d, magic, Pow2(p), Delta(d, p), x);
  }

  lemma SignedQuotient(d: int, magic: int, t: int, delta: int, x: int)
    requires d > 0 && t > 0 && delta > 0 && magic * d == t + delta
    requires Abs(x) * delta <= (d - Abs(x) % d) * t
    requires x >= 0 ==> Abs(x) * delta < (d - Abs(x) % d) * t
    ensures (x * magic) / t + (if x < 0 then 1 else 0) == TruncDiv(x, d)
  {
    hide TruncDiv;
    var y := Abs(x);
    DivModSplit(y, d);
    TruncAbs(x, d);
    SignedQuotientArith(d, magic, t, delta, x, y, y / d, y % d);
  }

  lemma TruncAbs(x: int, d: int)
    requires d > 0
    ensures TruncDiv(x, d) == if x >= 0 then Abs(x) / d else -(Abs(x) / d)
  {
  }

  lemma SignedQuotientArith(d: int, magic: int, t: int, delta: int, x: int, y: int, q: int, r: int)
    requires d > 0 && t > 0 && delta > 0 && magic * d == t + delta
    requires y == Abs(x) == d * q + r && 0 <= r < d
    requires y * delta <= (d - r) * t
    requires x >= 0 ==> y * delta < (d - r) * t
    ensures (x * magic) / t + (if x < 0 then 1 else 0) == if x >= 0 then q else -q
  {
    Scaled(d, magic, y, t, delta);
    if x >= 0 {
      MulMono(0, y, delta);
      FloorOf(y * magic, t, d, q, r, y * delta);
    } else {
      MulMono(1, y, delta);
      Negate(x, y, magic);
      CeilOf(y * magic, t, d, q, r, y * delta);
    }
  }

  lemma Negate(x: int, y: int, m: int)
    requires x == -y
    ensures x * m == -(y * m)
  {
  }

  lemma Scaled(d: int, magic: int, y: int, t: int, delta: int)
    requires d > 0 && magic * d == t + delta
    ensures (y * magic) * d == y * t + y * delta
  {
    MulAssoc(y, magic, d);
    Distribute(t, delta, y);
  }

  lemma FloorOf(n: int, t: int, d: int, q: int, r: int, err: int)
    requires t > 0 && d > 0 && 0 <= r < d && err >= 0
    requires n * d == (d * q + r) * t + err
    requires err < (d - r) * t
    ensures n / t == q
  {
    QuotientTerms(d, q, r, t);
    MulMono(0, r, t);
    Distribute(n, q * t, d);
    BetweenMultiples(n - q * t, t, d);
    DivModUnique(n, t, q, n - q * t);
  }

  lemma CeilOf(n: int, t: int, d: int, q: int, r: int, err: int)
    requires t > 0 && d > 0 && 0 <= r < d && err > 0
    requires n * d == (d * q + r) * t + err
    requires err <= (d - r) * t
    ensures (-n) / t == -q - 1
  {
    QuotientTerms(d, q, r, t);
    MulMono(0, r, t);
    Distribute(q * t + t, n, d);
    Distribute(q * t, t, d);
    BetweenMultiples(q * t + t - n, t, d);
    DivModUnique(-n, t, -q - 1, q * t + t - n);
  }

  lemma QuotientTerms(d: int, q: int, r: int, t: int)
    ensures (d * q + r) * t == (q * t) * d + r * t
    ensures (d - r) * t == d * t - r * t
  {
    MulAssoc(d, q, t);
    Distribute(d * q, r, t);
    Distribute(d, r, t);
  }

  lemma BetweenMultiples(z: int, t: int, d: int)
    requires d > 0 && 0 <= z * d < t * d
    ensures 0 <= z < t
  {
    if z < 0 { MulMono(z, -1, d); }
    if z >= t { MulMono(t, z, d); }
  }
}
