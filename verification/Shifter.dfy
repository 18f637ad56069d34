/** The barrel shifter: a reference definition that moves one bit at a time, and the closed forms
    that connect it to the shift expressions of the emulator. */
module Shifter {
  import opened Words

  datatype Shift = LSL | LSR | ASR | ROR
  datatype Shifted = Shifted(value: u32, carry: bool)

  /** One position of a shift or rotation; the carry is the bit that falls out
      (section A5.1 of ARM DDI 0100I). */
  function ShiftOnce(k: Shift, x: u32): Shifted {
    match k
    case LSL => Shifted(Wrap(2 * x), x >= TWO31)
    case LSR => Shifted(x / 2, x % 2 == 1)
    case ASR => Shifted(x / 2 + (if x >= TWO31 then TWO31 else 0), x % 2 == 1)
    case ROR => Shifted(x / 2 + (x % 2) * TWO31, x % 2 == 1)
  }

  /** The meaning of shifting by n: n single steps. Shifting by zero leaves value and carry alone. */
  function ShiftBy(k: Shift, x: u32, carry: bool, n: nat): Shifted {
    if n == 0 then Shifted(x, carry) else ShiftOnce(k, ShiftBy(k, x, carry, n - 1).value)
  }

  /** Rotation through the carry: 33 bits, one position. */
  function RotateExtended(x: u32, carry: bool): Shifted {
    Shifted(x / 2 + BitOf(carry) * TWO31, x % 2 == 1)
  }

  lemma {:induction false} LsrClosed(x: u32, c: bool, n: nat)
    ensures ShiftBy(LSR, x, c, n).value == Shr(x, n)
    ensures n >= 1 ==> ShiftBy(LSR, x, c, n).carry == Bit(x, n - 1)
  {
    if n > 0 {
      LsrClosed(x, c, n - 1);
      DivDiv(x, Pow2(n - 1), 2);
    }
  }

  lemma {:induction false} LslValue(x: u32, c: bool, n: nat)
    ensures ShiftBy(LSL, x, c, n).value == Shl(x, n)
  {
    hide Pow2, Wrap;
    if n == 0 {
      Pow2Zero();
      WrapSmall(x);
    } else {
      LslValue(x, c, n - 1);
      Pow2Step(n - 1);
      TwiceProduct(x, Pow2(n - 1));
      WrapDouble(x * Pow2(n - 1));
    }
  }

  lemma WrapDouble(p: int)
    ensures Wrap(2 * Wrap(p)) == Wrap(2 * p)
  {
    hide Wrap;
    WrapParts(p);
    WrapModulo(2 * Wrap(p), 2 * (p / TWO32));
  }

  /** The carry out of a left shift by 1..32 is bit 32 - n of the operand. */
  lemma LslCarry(x: u32, c: bool, n: nat)
    requires 1 <= n <= 32
    ensures ShiftBy(LSL, x, c, n).carry == Bit(x, 32 - n)
  {
    LslValue(x, c, n - 1);
    Pow2Product(n - 1, 32 - n, 31);
    TopOfProduct(x, Pow2(n - 1), Pow2(32 - n));
  }

  lemma Pow2Product(a: nat, b: nat, n: nat)
    requires a + b == n && 31 <= n <= 32
    ensures Pow2(a) * Pow2(b) == if n == 31 then TWO31 else TWO32
  {
    hide Pow2;
    Pow2Sum(a, b);
    Pow2At32();
  }

  lemma TopOfProduct(x: u32, p: nat, q: nat)
    requires p >= 1 && q >= 1 && p * q == TWO31
    ensures Wrap(x * p) >= TWO31 <==> x / q % 2 == 1
  {
    assert q * p == TWO31;
    Scale(x, q, p, TWO31);
    TopBit(x / q, (x % q) * p);
  }

  /** Multiplying by q, where p * q == m, moves x mod p into the part below m. */
  lemma Scale(x: nat, p: nat, q: nat, m: nat)
    requires p >= 1 && q >= 1 && p * q == m
    ensures x * q == (x / p) * m + (x % p) * q
    ensures 0 <= (x % p) * q < m
    ensures x < m ==> x / p < q
  {
    Distribute(p, x / p, x % p, q);
    assert p * (x / p) + x % p == x;
    RemainderBelow(x % p, p, q);
    QuotientBelow(x, p, q);
  }

  lemma RemainderBelow(r: int, p: int, q: int)
    requires 0 <= r < p && q >= 1
    ensures 0 <= r * q < p * q
  {
    MulMonotone(r, p - 1, q);
    MulMonotone(0, r, q);
  }

  lemma QuotientBelow(x: nat, p: nat, q: nat)
    requires p >= 1
    ensures x < p * q ==> x / p < q
  {
    if x / p >= q {
      MulMonotone(q, x / p, p);
    }
  }

  lemma Distribute(p: int, a: int, r: int, q: int)
    ensures (p * a + r) * q == a * (p * q) + r * q
  {
  }

  lemma MulMonotone(a: int, b: int, k: int)
    requires a <= b && k >= 0
    ensures a * k <= b * k
  {
  }

  lemma TopBit(a: nat, r: int)
    requires 0 <= r < TWO31
    ensures Wrap(a * TWO31 + r) >= TWO31 <==> a % 2 == 1
  {
    var b, e := a / 2, a % 2;
    assert a * TWO31 + r == b * TWO32 + (e * TWO31 + r);
  }

  /** Shifting left by 32 or more leaves nothing; by more than 32, not even a carry. */
  lemma {:induction false} LslLarge(x: u32, c: bool, n: nat)
    requires n >= 32
    ensures ShiftBy(LSL, x, c, n).value == 0
    ensures n > 32 ==> !ShiftBy(LSL, x, c, n).carry
  {
    hide Pow2, Wrap;
    if n == 32 {
      LslValue(x, c, 32);
      Pow2At32();
      WrapModulo(0, x);
    } else {
      LslLarge(x, c, n - 1);
    }
    WrapSmall(0);
  }

  lemma {:induction false} LsrLarge(x: u32, c: bool, n: nat)
    requires n >= 32
    ensures ShiftBy(LSR, x, c, n).value == 0
    ensures n > 32 ==> !ShiftBy(LSR, x, c, n).carry
  {
    hide Pow2;
    if n == 32 {
      LsrClosed(x, c, 32);
      Pow2At32();
    } else {
      LsrLarge(x, c, n - 1);
    }
  }

  lemma {:induction false} AsrClosed(x: u32, c: bool, n: nat)
    ensures ShiftBy(ASR, x, c, n).value == Sar(x, n)
    ensures Signed(Sar(x, n)) == Signed(x) / Pow2(n)
    ensures n >= 1 ==> ShiftBy(ASR, x, c, n).carry == (Sar(x, n - 1) % 2 == 1)
  {
    SignedQuotient(Signed(x), Pow2(n));
    if n > 0 {
      AsrClosed(x, c, n - 1);
      AsrOnce(Sar(x, n - 1), c);
      DivDiv(Signed(x), Pow2(n - 1), 2);
    }
  }

  lemma AsrOnce(x: u32, c: bool)
    ensures Signed(ShiftOnce(ASR, x).value) == Signed(x) / 2
  {
  }

  lemma SignedQuotient(s: int, d: nat)
    requires -TWO31 <= s < TWO31 && d >= 1
    ensures -TWO31 <= s / d < TWO31 && Signed(Wrap(s / d)) == s / d
  {
    if s >= 0 { DivBound(s, d); } else { NegativeDivBound(s, d); }
  }

  lemma NegativeDivBound(s: int, d: nat)
    requires s < 0 && d >= 1
    ensures s <= s / d < 0
  {
    var q := s / d;
    assert q < 0;
    MulMonotone(q + 1, 0, d - 1);
    assert (q + 1) * (d - 1) == d * q + d - q - 1;
  }

  /** From 31 positions on an arithmetic shift is all sign. */
  lemma {:induction false} AsrLarge(x: u32, c: bool, n: nat)
    requires n >= 31
    ensures ShiftBy(ASR, x, c, n).value == (if x >= TWO31 then TWO32 - 1 else 0)
    ensures n >= 32 ==> ShiftBy(ASR, x, c, n).carry == (x >= TWO31)
  {
    if n == 31 {
      AsrClosed(x, c, 31);
      Sar31(x);
    } else {
      AsrLarge(x, c, n - 1);
    }
  }

  /** `(int) x >> 31` */
  lemma Sar31(x: u32)
    ensures Sar(x, 31) == (if x >= TWO31 then TWO32 - 1 else 0)
  {
    Pow2At32();
  }

  lemma {:induction false} RorClosed(x: u32, c: bool, n: nat)
    requires n <= 32
    ensures ShiftBy(ROR, x, c, n).value == Shr(x, n) + (x % Pow2(n)) * Pow2(32 - n)
    ensures n >= 1 ==> ShiftBy(ROR, x, c, n).carry == Bit(x, n - 1)
  {
    hide Pow2;
    if n == 0 {
      Pow2Zero();
      assert x % 1 == 0 && x / 1 == x;
    } else {
      RorClosed(x, c, n - 1);
      Pow2Product(n - 1, 32 - (n - 1), 32);
      Pow2Step(n - 1);
      Pow2Step(32 - n);
      RorOnce(x, Pow2(n - 1), Pow2(32 - n));
    }
  }

  /** One more single-bit rotation turns the rotation by n - 1 into the rotation by n (p is 2^(n-1)). */
  lemma RorOnce(x: u32, p: nat, q: nat)
    requires p >= 1 && q >= 1 && p * (2 * q) == TWO32
    ensures var y := x / p + (x % p) * (2 * q);
      && y / 2 + (y % 2) * TWO31 == x / (2 * p) + (x % (2 * p)) * q
      && y % 2 == x / p % 2
  {
    var a, r := x / p, x % p;
    var y := a + r * (2 * q);
    assert r * (2 * q) == 2 * (r * q);
    assert y % 2 == a % 2 && y / 2 == a / 2 + r * q;
    DivDiv(x, p, 2);
    ModSplit(x, p);
    assert p * q == TWO31;
    Distribute(p, a % 2, r, q);
  }

  /** The remainder by 2p splits into the next bit and the remainder by p. */
  lemma ModSplit(x: nat, p: nat)
    requires p >= 1
    ensures x % (2 * p) == (x / p % 2) * p + x % p
  {
    var a, r := x / p, x % p;
    var b, e := a / 2, a % 2;
    assert x == p * a + r;
    assert p * (2 * b + e) == (2 * p) * b + e * p;
    assert 0 <= e * p + r < 2 * p;
    DivUnique(x, 2 * p, b, e * p + r);
  }

  lemma {:induction false} ShiftSplit(k: Shift, x: u32, c: bool, a: nat, b: nat)
    ensures ShiftBy(k, x, c, a + b) == ShiftBy(k, ShiftBy(k, x, c, a).value, ShiftBy(k, x, c, a).carry, b)
    decreases b
  {
    if b > 0 {
      ShiftSplit(k, x, c, a, b - 1);
      assert a + b - 1 == a + (b - 1);
    }
  }

  lemma RorFull(x: u32, c: bool)
    ensures ShiftBy(ROR, x, c, 32) == Shifted(x, x >= TWO31)
  {
    hide Pow2, ShiftBy;
    RorClosed(x, c, 32);
    Pow2At32();
    Pow2Zero();
    DivUnique(x, TWO32, 0, x);
  }

  /** A rotation's carry is the sign of its result. */
  lemma RorCarry(x: u32, c: bool, n: nat)
    requires n >= 1
    ensures ShiftBy(ROR, x, c, n).carry == (ShiftBy(ROR, x, c, n).value >= TWO31)
  {
  }

  lemma RorPeriod(x: u32, c: bool, m: nat)
    ensures ShiftBy(ROR, x, c, 32 + m).value == ShiftBy(ROR, x, c, m).value
  {
    ShiftSplit(ROR, x, c, 32, m);
    RorFull(x, c);
    ValueIgnoresCarry(ROR, x, c, x >= TWO31, m);
  }

  /** Only the amount modulo 32 matters to a rotation's value. */
  lemma {:induction false} RorModulo(x: u32, c: bool, n: nat)
    ensures ShiftBy(ROR, x, c, n).value == ShiftBy(ROR, x, c, n % 32).value
  {
    hide ShiftBy;
    Modulo32(n);
    if n >= 32 {
      RorPeriod(x, c, n - 32);
      RorModulo(x, c, n - 32);
    }
  }

  lemma Modulo32(n: nat)
    ensures n % 32 == if n < 32 then n else (n - 32) % 32
  {
  }

  lemma {:induction false} ValueIgnoresCarry(k: Shift, x: u32, c: bool, d: bool, n: nat)
    ensures ShiftBy(k, x, c, n).value == ShiftBy(k, x, d, n).value
    ensures n >= 1 ==> ShiftBy(k, x, c, n) == ShiftBy(k, x, d, n)
  {
    if n > 0 { ValueIgnoresCarry(k, x, c, d, n - 1); }
  }

  /** `(x << (32 - n)) | (x >> n)` is rotation to the right. */
  lemma RotateExpression(x: u32, c: bool, n: nat)
    requires 1 <= n <= 31
    ensures BitOr(Shl(x, 32 - n), Shr(x, n)) == ShiftBy(ROR, x, c, n).value
  {
    RorClosed(x, c, n);
    var p, q := Pow2(n), Pow2(32 - n);
    Pow2Sum(n, 32 - n);
    Pow2At32();
    Scale(x, p, q, TWO32);
    DivUnique(x * q, TWO32, x / p, (x % p) * q);
    OrDisjoint(x % p, x / p, 32, 32 - n);
  }

  /** `(x >> 1) | (carry << 31)` is rotation through the carry. */
  lemma ExtendExpression(x: u32, c: bool)
    ensures BitOr(Shr(x, 1), Shl(BitOf(c), 31)) == RotateExtended(x, c).value
  {
    hide Pow2, Bitwise;
    Pow2At32();
    if c {
      OrSymmetric(x / 2, TWO31, 32);
      OrDisjoint(1, x / 2, 32, 31);
    } else {
      OrZero(x / 2, 32);
    }
  }

  lemma {:induction false} OrSymmetric(a: nat, b: nat, n: nat)
    ensures Bitwise(Either, a, b, n) == Bitwise(Either, b, a, n)
  {
    if n > 0 { OrSymmetric(a / 2, b / 2, n - 1); }
  }

  lemma OrCommutes(x: u32, y: u32)
    ensures BitOr(x, y) == BitOr(y, x)
  {
    OrSymmetric(x, y, 32);
  }
}
