/** The 32 by 32 bit multiplication of src/arm11/armemu.c, which computes in 32-bit words only. */
module LongMultiply {
  import opened Words
  import opened Shifter

  /** Add32: the sum, and the carry found by comparing it with an operand. */
  method Add32(a1: u32, a2: u32) returns (result: u32, carry: u32)
    ensures result + TWO32 * carry == a1 + a2
  {
    result := Wrap(a1 + a2);
    carry := if (if result == a1 then a2 != 0 else result < a1) then 1 else 0;
  }

  /** Four 16 by 16 bit products, added up with their carries. */
  method Product(rm: u32, rs: u32) returns (rdLo: u32, rdHi: u32)
    ensures rdLo + TWO32 * rdHi == rm * rs
  {
    var rmLow, rmHigh, rsLow, rsHigh := rm % 0x1_0000, rm / 0x1_0000, rs % 0x1_0000, rs / 0x1_0000;
    SmallProduct(rsLow, rmLow);
    SmallProduct(rsLow, rmHigh);
    SmallProduct(rsHigh, rmLow);
    SmallProduct(rsHigh, rmHigh);
    var lo: u32 := rsLow * rmLow;
    var mid1: u32 := rsLow * rmHigh;
    var mid2: u32 := rsHigh * rmLow;
    var hi: u32 := rsHigh * rmHigh;
    var carry1, carry2;
    rdLo, carry1 := Add32(lo, Wrap(mid1 * 0x1_0000));
    rdLo, carry2 := Add32(rdLo, Wrap(mid2 * 0x1_0000));
    Raised(mid1);
    Raised(mid2);
    Halves(rm, rs, lo, mid1, mid2, hi);
    HighWord(rm, rs, rdLo, carry1 + (carry2 + mid1 / 0x1_0000 + mid2 / 0x1_0000 + hi));
    rdHi := Wrap(carry1 + (carry2 + mid1 / 0x1_0000 + mid2 / 0x1_0000 + hi));
  }

  lemma SmallProduct(x: nat, y: nat)
    requires x < 0x1_0000 && y < 0x1_0000
    ensures 0 <= x * y < TWO32
  {
    MulMonotone(x, 0xFFFF, y);
    MulMonotone(0, x, y);
  }

  /** A word moved up by 16 bits: what stays in the word and what leaves it. */
  lemma Raised(x: u32)
    ensures x * 0x1_0000 == Wrap(x * 0x1_0000) + TWO32 * (x / 0x1_0000)
  {
    DivUnique(x * 0x1_0000, TWO32, x / 0x1_0000, (x % 0x1_0000) * 0x1_0000);
  }

  lemma Halves(rm: u32, rs: u32, lo: int, mid1: int, mid2: int, hi: int)
    requires lo == (rs % 0x1_0000) * (rm % 0x1_0000) && mid1 == (rs % 0x1_0000) * (rm / 0x1_0000)
    requires mid2 == (rs / 0x1_0000) * (rm % 0x1_0000) && hi == (rs / 0x1_0000) * (rm / 0x1_0000)
    ensures rm * rs == lo + 0x1_0000 * mid1 + 0x1_0000 * mid2 + TWO32 * hi
  {
    ProductOfHalves(rm / 0x1_0000, rm % 0x1_0000, rs / 0x1_0000, rs % 0x1_0000);
  }

  lemma ProductOfHalves(a: int, b: int, c: int, d: int)
    ensures (0x1_0000 * a + b) * (0x1_0000 * c + d) == d * b + 0x1_0000 * (d * a) + 0x1_0000 * (c * b) + TWO32 * (c * a)
  {
  }

  /** The upper word of a product fits. */
  lemma HighWord(rm: u32, rs: u32, low: u32, high: int)
    requires low + TWO32 * high == rm * rs
    ensures 0 <= high < TWO32 && Wrap(high) == high
  {
    assert 0 <= rm * rs <= rm * (TWO32 - 1);
  }

  // ---- Signs -------------------------------------------------------------

  /** `-x` for a word. */
  function Negated(x: u32): u32 { Wrap(TWO32 - x) }

  /** The magnitude of a word read as a signed number; 0x80000000 is its own negation. */
  function Magnitude(x: u32): u32 { if x >= TWO31 then Negated(x) else x }

  lemma MagnitudeMeans(x: u32)
    ensures Magnitude(x) == (if Signed(x) < 0 then -Signed(x) else Signed(x))
  {
  }

  /** `(a ^ b) & 0x80000000` tells that the signs differ. */
  lemma SignsDiffer(a: u32, b: u32)
    ensures BitAnd(BitXor(a, b), TWO31) > 0 <==> (a >= TWO31) != (b >= TWO31)
  {
    hide BitAnd;
    Pow2At32();
    AndTests(BitXor(a, b), TWO31, 31);
    BitwiseBit(Differ, a, b, 32, 31);
    SignBitOf(a);
    SignBitOf(b);
  }

  lemma SignBitOf(x: u32)
    ensures x / Pow2(31) % 2 == if x >= TWO31 then 1 else 0
  {
    Pow2At32();
  }

  lemma SignedProduct(rm: u32, rs: u32)
    ensures var p: int := Magnitude(rm) * Magnitude(rs);
      Signed(rm) * Signed(rs) == if (rm >= TWO31) != (rs >= TWO31) then -p else p
  {
    MagnitudeMeans(rm);
    MagnitudeMeans(rs);
    SignRules(Signed(rm), Signed(rs));
  }

  lemma SignRules(x: int, y: int)
    ensures (-x) * y == -(x * y) && x * (-y) == -(x * y) && (-x) * (-y) == x * y
  {
  }

  /** Two words as one number. */
  function Joined(lo: u32, hi: u32): int { lo + TWO32 * hi }

  /** Negates a number kept in two words. */
  method Negate64(lo: u32, hi: u32) returns (rdLo: u32, rdHi: u32)
    ensures Joined(rdLo, rdHi) == (-Joined(lo, hi)) % TWO64
  {
    rdLo, rdHi := BitNot(lo), BitNot(hi);
    if rdLo == 0xFFFF_FFFF {
      rdLo := 0;
      rdHi := Wrap(rdHi + 1);
    } else {
      rdLo := Wrap(rdLo + 1);
    }
    NegationMeans(lo, hi, rdLo, rdHi);
  }

  lemma NegationMeans(lo: u32, hi: u32, rdLo: u32, rdHi: u32)
    requires rdLo == Wrap(TWO32 - lo) && rdHi == Wrap(TWO32 - 1 - hi + if lo == 0 then 1 else 0)
    ensures Joined(rdLo, rdHi) == (-Joined(lo, hi)) % TWO64
  {
    var x := Joined(lo, hi);
    DivUnique(-x, TWO64, if x == 0 then 0 else -1, Joined(rdLo, rdHi));
  }

  /** The product as the instructions mean it: of the words, or of the signed numbers that they represent. */
  function Exact(rm: u32, rs: u32, signed: bool): int {
    if signed then Signed(rm) * Signed(rs) else rm as int * rs
  }

  /** The product as computed: of magnitudes, negated if the signs differ. */
  method FullProduct(rm: u32, rs: u32, signed: bool) returns (rdLo: u32, rdHi: u32)
    ensures Joined(rdLo, rdHi) == Exact(rm, rs, signed) % TWO64
  {
    hide BitAnd, BitXor, Magnitude, Signed;
    var m, s, sign := rm, rs, false;
    if signed {
      SignsDiffer(rm, rs);
      SignedProduct(rm, rs);
      sign := BitAnd(BitXor(rm, rs), TWO31) > 0;
      m, s := Magnitude(rm), Magnitude(rs);
    }
    rdLo, rdHi := Product(m, s);
    JoinedFits(rdLo, rdHi);
    if sign {
      rdLo, rdHi := Negate64(rdLo, rdHi);
    }
  }

  lemma JoinedFits(lo: u32, hi: u32)
    ensures 0 <= Joined(lo, hi) < TWO64 && Joined(lo, hi) % TWO64 == Joined(lo, hi)
  {
  }

  /** Adding a number to another in two words: modulo 2^64. */
  method Add64(lo: u32, hi: u32, addLo: u32, addHi: u32) returns (rdLo: u32, rdHi: u32)
    ensures Joined(rdLo, rdHi) == (Joined(lo, hi) + Joined(addLo, addHi)) % TWO64
  {
    var carry;
    rdLo, carry := Add32(lo, addLo);
    rdHi := Wrap(hi + addHi + carry);
    SumMeans(rdLo, hi + addHi + carry);
  }

  lemma SumMeans(lo: u32, high: int)
    ensures Joined(lo, Wrap(high)) == (lo + TWO32 * high) % TWO64
  {
    DivUnique(lo + TWO32 * high, TWO64, high / TWO32, Joined(lo, Wrap(high)));
  }

  /** The word whose sign and zeroness are those of a number in two words: `hi | (lo >> 16) | (lo & 0xFFFF)`. */
  function Summary(lo: u32, hi: u32): u32 { BitOr(BitOr(hi, Shr(lo, 16)), lo % 0x1_0000) }

  lemma SummaryMeans(lo: u32, hi: u32)
    ensures Summary(lo, hi) >= TWO31 <==> Joined(lo, hi) >= TWO64 / 2
    ensures Summary(lo, hi) == 0 <==> Joined(lo, hi) == 0
  {
    hide BitOr, Shr;
    UpperHalf(lo);
    var x := BitOr(hi, Shr(lo, 16));
    OrSign(hi, Shr(lo, 16));
    OrSign(x, lo % 0x1_0000);
    OrIsZero(hi, Shr(lo, 16));
    OrIsZero(x, lo % 0x1_0000);
  }

  lemma UpperHalf(x: u32)
    ensures Shr(x, 16) == x / 0x1_0000
  {
    Pow2At32();
    Pow2Sum(8, 8);
  }

  lemma OrSign(a: u32, b: u32)
    ensures BitOr(a, b) >= TWO31 <==> a >= TWO31 || b >= TWO31
  {
    hide BitOr;
    OrTop31(a, b);
    SignShifted(BitOr(a, b));
  }

  lemma SignShifted(x: u32)
    ensures Shr(x, 31) != 0 <==> x >= TWO31
  {
    Pow2At32();
  }

  lemma OrIsZero(a: u32, b: u32)
    ensures BitOr(a, b) == 0 <==> a == 0 && b == 0
  {
    Pow2At32();
    OrNonzero(a, b, 32);
  }

  lemma WordsOf(lo: u32, hi: u32)
    ensures Joined(lo, hi) % TWO32 == lo && Joined(lo, hi) / TWO32 == hi
  {
    DivUnique(Joined(lo, hi), TWO32, hi, lo);
  }

  lemma JoinedParts(x: int)
    requires 0 <= x < TWO64
    ensures 0 <= x / TWO32 < TWO32 && Joined(x % TWO32, x / TWO32) == x
  {
  }

  lemma AddModulo(x: int, y: int)
    ensures (x + y % TWO64) % TWO64 == (x + y) % TWO64
  {
    SameRemainder(x + y % TWO64, y / TWO64, TWO64);
  }
}
