/** 32-bit machine words as integers, with the C operators the emulator applies to them:
    wrap-around arithmetic, shifts, and bitwise logic defined bit by bit. */
module Words {

  const TWO31: int := 0x8000_0000
  const TWO32: int := 0x1_0000_0000
  const TWO64: int := 0x1_0000_0000_0000_0000

  type u32 = x: int | 0 <= x < 0x1_0000_0000

  type u8 = x: int | 0 <= x < 256

  type u2 = x: int | 0 <= x < 4

  datatype Option<T> = None | Some(value: T)

  function Wrap(x: int): u32 { x % TWO32 }

  /** The two's complement reading of a word. */
  function Signed(x: u32): int { if x < TWO31 then x else x - TWO32 }

  function Pow2(n: nat): (p: nat)
    ensures p >= 1
  {
    if n == 0 then 1 else 2 * Pow2(n - 1)
  }

  function BitOf(b: bool): (r: u32) { if b then 1 else 0 }

  // ---- C operators -------------------------------------------------------

  function Shl(x: u32, n: nat): u32 { Wrap(x * Pow2(n)) }

  function Shr(x: u32, n: nat): u32
  {
    DivBound(x, Pow2(n));
    x / Pow2(n)
  }

  /** `(int) x >> n`: the shift of the signed value rounds towards minus infinity. */
  function Sar(x: u32, n: nat): u32 { Wrap(Signed(x) / Pow2(n)) }

  function BitNot(x: u32): u32 { TWO32 - 1 - x }

  datatype Gate = Both | Either | Differ {
    function Apply(a: int, b: int): (r: int)
      requires 0 <= a <= 1 && 0 <= b <= 1
      ensures 0 <= r <= 1
    {
      match this
      case Both => a * b
      case Either => if a + b == 0 then 0 else 1
      case Differ => if a == b then 0 else 1
    }
  }

  /** Combines the low n bits of a and b, one bit position at a time. */
  function Bitwise(g: Gate, a: nat, b: nat, n: nat): (r: nat)
    ensures r < Pow2(n)
    decreases n
  {
    if n == 0 then 0 else g.Apply(a % 2, b % 2) + 2 * Bitwise(g, a / 2, b / 2, n - 1)
  }

  function BitAnd(a: u32, b: u32): u32 { Pow2At32(); Bitwise(Both, a, b, 32) }
  function BitOr(a: u32, b: u32): u32 { Pow2At32(); Bitwise(Either, a, b, 32) }
  function BitXor(a: u32, b: u32): u32 { Pow2At32(); Bitwise(Differ, a, b, 32) }

  // ---- Powers of two -----------------------------------------------------

  lemma Pow2Zero()
    ensures Pow2(0) == 1
  {
  }

  lemma Pow2Step(n: nat)
    ensures Pow2(n + 1) == 2 * Pow2(n)
  {
  }

  lemma Pow2At32()
    ensures Pow2(1) == 2 && Pow2(2) == 4 && Pow2(8) == 256
    ensures Pow2(30) == 0x4000_0000 && Pow2(31) == TWO31 && Pow2(32) == TWO32
  {
    Pow2At8();
    hide Pow2;
    Pow2Sum(8, 8);
    Pow2Sum(16, 8);
    Pow2Sum(24, 6);
    Pow2Step(30);
    Pow2Step(31);
  }

  lemma Pow2At8()
    ensures Pow2(1) == 2 && Pow2(2) == 4 && Pow2(6) == 64 && Pow2(8) == 256
  {
    assert Pow2(6) == 64;
  }

  lemma {:induction false} Pow2Sum(a: nat, b: nat)
    ensures Pow2(a + b) == Pow2(a) * Pow2(b)
  {
    hide Pow2;
    if b == 0 {
      Pow2Zero();
    } else {
      Pow2Sum(a, b - 1);
      Pow2Step(a + b - 1);
      Pow2Step(b - 1);
      TwiceProduct(Pow2(a), Pow2(b - 1));
    }
  }

  lemma TwiceProduct(x: int, y: int)
    ensures x * (2 * y) == 2 * (x * y)
  {
  }

  lemma DivBound(x: nat, d: nat)
    requires d >= 1
    ensures 0 <= x / d <= x
  {
  }

  /** Dividing in two steps, also for negative dividends (both divisions round down). */
  lemma DivDiv(x: int, a: int, b: int)
    requires a >= 1 && b >= 1
    ensures a * b >= 1 && (x / a) / b == x / (a * b)
  {
    var q, r := x / a, x % a;
    var p, s := q / b, q % b;
    assert x == a * q + r;
    Regroup(a, b, p, s);
    SmallRemainder(a, b, s, r);
    DivUnique(x, a * b, p, a * s + r);
  }

  lemma Regroup(a: int, b: int, p: int, s: int)
    ensures a * (b * p + s) == (a * b) * p + a * s
  {
  }

  lemma SmallRemainder(a: int, b: int, s: int, r: int)
    requires a >= 1 && 0 <= s < b && 0 <= r < a
    ensures 0 <= a * s + r < a * b
  {
    assert a * s <= a * (b - 1);
  }

  /** Quotient and remainder are determined by the division equation. */
  lemma DivUnique(x: int, d: int, q: int, r: int)
    requires d >= 1 && x == d * q + r && 0 <= r < d
    ensures x / d == q && x % d == r
  {
    var q', r' := x / d, x % d;
    assert d * (q - q') == r' - r by { Regroup(d, 1, q, -q'); }
    OnlyZero(d, q - q');
  }

  lemma OnlyZero(d: int, k: int)
    requires -d < d * k < d
    ensures k == 0
  {
  }

  // ---- Wrap-around ---------------------------------------------------------

  lemma WrapSmall(x: int)
    requires 0 <= x < TWO32
    ensures Wrap(x) == x
  {
  }

  lemma WrapAdd(x: int, y: int)
    ensures Wrap(x + Wrap(y)) == Wrap(x + y)
  {
  }

  lemma WrapParts(x: int)
    ensures x == Wrap(x) + (x / TWO32) * TWO32
  {
  }

  lemma WrapModulo(x: int, k: int)
    ensures Wrap(x + k * TWO32) == Wrap(x)
  {
  }

  lemma WrapKeepsAlignment(x: int)
    ensures x % 4 == 0 ==> Wrap(x) % 4 == 0
    ensures x % 2 == 0 ==> Wrap(x) % 2 == 0
  {
    assert x == Wrap(x) + TWO32 * (x / TWO32);
    SameRemainder(Wrap(x), 0x4000_0000 * (x / TWO32), 4);
    SameRemainder(Wrap(x), 0x8000_0000 * (x / TWO32), 2);
  }

  /** Adding a multiple of d to a multiple of d keeps it one, also when the sum wraps around. */
  lemma WrapMultiple(x: int, k: int, d: int)
    requires (d == 2 || d == 4) && x % d == 0
    ensures Wrap(x + d * k) % d == 0
  {
    SameRemainder(x, k, d);
    WrapKeepsAlignment(x + d * k);
  }

  lemma SameRemainder(x: int, k: int, d: int)
    requires d >= 1
    ensures (x + d * k) % d == x % d
  {
    Regroup(d, 1, x / d, k);
    DivUnique(x + d * k, d, x / d + k, x % d);
  }

  // ---- Bitwise logic -----------------------------------------------------

  /** Bit i of the word x. */
  predicate Bit(x: nat, i: nat) { (x / Pow2(i)) % 2 == 1 }

  /** The lowest bit of a bitwise combination, and the others. */
  lemma BitwiseParts(g: Gate, a: nat, b: nat, n: nat)
    requires n > 0
    ensures Bitwise(g, a, b, n) % 2 == g.Apply(a % 2, b % 2)
    ensures Bitwise(g, a, b, n) / 2 == Bitwise(g, a / 2, b / 2, n - 1)
  {
    EvenOdd(g.Apply(a % 2, b % 2), Bitwise(g, a / 2, b / 2, n - 1));
  }

  lemma EvenOdd(e: int, h: int)
    requires 0 <= e <= 1
    ensures (e + 2 * h) % 2 == e && (e + 2 * h) / 2 == h
  {
  }

  /** Bitwise computes every bit of its result from the two bits at the same position. */
  lemma {:induction false} BitwiseBit(g: Gate, a: nat, b: nat, n: nat, i: nat)
    requires i < n
    ensures Bit(Bitwise(g, a, b, n), i) <==> g.Apply(a / Pow2(i) % 2, b / Pow2(i) % 2) == 1
    decreases n
  {
    hide Pow2, Bitwise, Gate.Apply;
    var r := Bitwise(g, a, b, n);
    BitwiseParts(g, a, b, n);
    if i == 0 {
      Pow2Zero();
    } else {
      BitwiseBit(g, a / 2, b / 2, n - 1, i - 1);
      Halve(r, i);
      Halve(a, i);
      Halve(b, i);
    }
  }

  lemma Halve(x: nat, i: nat)
    requires i > 0
    ensures x / Pow2(i) == x / 2 / Pow2(i - 1)
  {
    hide Pow2;
    Pow2Step(i - 1);
    DivDiv(x, 2, Pow2(i - 1));
  }

  /** The bits of x from position k on. */
  function From(x: nat, k: nat): nat
  {
    DivBound(x, Pow2(k));
    x / Pow2(k)
  }

  lemma FromStep(x: nat, k: nat)
    ensures From(x, 0) == x
    ensures k > 0 ==> From(x, k) == From(x / 2, k - 1)
  {
    hide Pow2;
    Pow2Zero();
    if k > 0 { Halve(x, k); }
  }

  /** Shifting right commutes with bitwise logic. */
  lemma {:induction false} BitwiseShr(g: Gate, a: nat, b: nat, n: nat, k: nat)
    requires k <= n
    ensures From(Bitwise(g, a, b, n), k) == Bitwise(g, From(a, k), From(b, k), n - k)
    decreases k
  {
    hide From, Bitwise;
    var r := Bitwise(g, a, b, n);
    FromStep(r, k);
    FromStep(a, k);
    FromStep(b, k);
    if k > 0 {
      BitwiseShr(g, a / 2, b / 2, n - 1, k - 1);
      BitwiseParts(g, a, b, n);
    }
  }

  /** The disjunction of a multiple of 2^k and a number below 2^k is their sum. */
  lemma {:induction false} OrDisjoint(hi: nat, lo: nat, n: nat, k: nat)
    requires k <= n && lo < Pow2(k) && hi * Pow2(k) < Pow2(n)
    ensures Bitwise(Either, hi * Pow2(k), lo, n) == hi * Pow2(k) + lo
    decreases n
  {
    if n == 0 {
    } else if k == 0 {
      assert hi * Pow2(0) == hi;
      OrZero(hi, n);
    } else {
      assert hi * Pow2(k) == 2 * (hi * Pow2(k - 1));
      OrDisjoint(hi, lo / 2, n - 1, k - 1);
    }
  }

  lemma {:induction false} OrZero(a: nat, n: nat)
    requires a < Pow2(n)
    ensures Bitwise(Either, a, 0, n) == a
  {
    if n > 0 { OrZero(a / 2, n - 1); }
  }

  /** `(a | b) >> 30` is nonzero exactly when one of the operands reaches 2^30. */
  lemma OrTop30(a: u32, b: u32)
    ensures Shr(BitOr(a, b), 30) != 0 <==> a >= 0x4000_0000 || b >= 0x4000_0000
  {
    hide Pow2, Bitwise;
    Pow2At32();
    BitwiseShr(Either, a, b, 32, 30);
    OrNonzero(a / Pow2(30), b / Pow2(30), 2);
  }

  /** `(a | b) >> 31` is nonzero exactly when one of the operands is negative. */
  lemma OrTop31(a: u32, b: u32)
    ensures Shr(BitOr(a, b), 31) != 0 <==> a >= TWO31 || b >= TWO31
  {
    hide Pow2, Bitwise;
    Pow2At32();
    BitwiseShr(Either, a, b, 32, 31);
    OrNonzero(a / Pow2(31), b / Pow2(31), 1);
  }

  lemma {:induction false} OrNonzero(a: nat, b: nat, n: nat)
    requires a < Pow2(n) && b < Pow2(n)
    ensures Bitwise(Either, a, b, n) != 0 <==> a != 0 || b != 0
  {
    if n > 0 { OrNonzero(a / 2, b / 2, n - 1); }
  }

  /** `a & (1 << k)` tests bit k. */
  lemma {:induction false} AndSelectsBit(a: nat, k: nat, n: nat)
    requires k < n
    ensures Bitwise(Both, a, Pow2(k), n) > 0 <==> Bit(a, k)
  {
    hide Pow2, Bitwise;
    BitwiseParts(Both, a, Pow2(k), n);
    if k == 0 {
      Pow2Zero();
      AndZero(a / 2, n - 1);
    } else {
      Pow2Step(k - 1);
      AndSelectsBit(a / 2, k - 1, n - 1);
      Halve(a, k);
    }
  }

  lemma AndTests(a: u32, j: u32, k: nat)
    requires k < 32 && j == Pow2(k)
    ensures BitAnd(a, j) > 0 <==> Bit(a, k)
  {
    hide Pow2, Bitwise, Bit;
    AndSelectsBit(a, k, 32);
  }

  lemma {:induction false} AndZero(a: nat, n: nat)
    ensures Bitwise(Both, a, 0, n) == 0
  {
    if n > 0 { AndZero(a / 2, n - 1); }
  }
}
