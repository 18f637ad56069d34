/** The tables of src/arm11/arminit.c: rotated immediates, and the bytes that a register list occupies. */
module Tables {
  import opened Words
  import opened Shifter
  import Cpu

  // ---- Register lists ----------------------------------------------------

  /** How many of the lowest n bits of a register list are set. */
  function Count(list: nat, n: nat): (c: nat)
    ensures c <= n
  {
    if n == 0 then 0 else Count(list, n - 1) + if Bit(list, n - 1) then 1 else 0
  }

  lemma CountStep(list: nat, n: nat)
    ensures Count(list, 0) == 0
    ensures Count(list, n + 1) == Count(list, n) + if Bit(list, n) then 1 else 0
  {
  }

  /** The set bits of a list are those of its two halves. */
  lemma {:induction false} CountHalves(list: nat, n: nat)
    ensures Count(list, 8 + n) == Count(list % 256, 8) + Count(list / 256, n)
  {
    hide Bit;
    if n == 0 {
      CountLow(list, 8);
    } else {
      CountHalves(list, n - 1);
      HighBit(list, n - 1);
    }
  }

  lemma HighBit(list: nat, i: nat)
    ensures Bit(list, 8 + i) <==> Bit(list / 256, i)
  {
    hide Pow2;
    Pow2At32();
    Pow2Sum(8, i);
    DivDiv(list, 256, Pow2(i));
  }

  lemma {:induction false} CountLow(list: nat, n: nat)
    requires n <= 8
    ensures Count(list, n) == Count(list % 256, n)
  {
    if n > 0 {
      CountLow(list, n - 1);
      LowBit(list, n - 1);
    }
  }

  lemma LowBit(list: nat, i: nat)
    requires i < 8
    ensures Bit(list, i) <==> Bit(list % 256, i)
  {
    var p, q := Pow2(i), Pow2(7 - i);
    Pow2At32();
    Pow2Sum(i, 8 - i);
    LowQuotient(list, p, q);
  }

  /** Dropping a multiple of 2pq does not change the parity of the quotient by p. */
  lemma LowQuotient(x: nat, p: nat, q: nat)
    requires p >= 1 && q >= 1 && p * (2 * q) == 256
    ensures (x / p) % 2 == ((x % 256) / p) % 2
  {
    var h, l := x / 256, x % 256;
    assert x == p * (2 * q * h) + l by { Regroup(p, 2 * q, h, 0); }
    var u, v := l / p, l % p;
    Regroup(p, 1, 2 * q * h, u);
    DivUnique(x, p, 2 * q * h + u, v);
    Regroup(2, q, h, 0);
    SameRemainder(u, q * h, 2);
  }

  // ---- Initialization ----------------------------------------------------

  /** ROTATER: `(n >> b) | (n << (32 - b))` */
  function RotateR(n: u32, b: nat): u32
    requires b <= 32
  {
    BitOr(Shr(n, b), Shl(n, 32 - b))
  }

  lemma RotateRMeans(n: u32, b: nat)
    requires b < 32
    ensures RotateR(n, b) == ShiftBy(ROR, n, false, b).value
  {
    hide ShiftBy;
    OrCommutes(Shl(n, 32 - b), Shr(n, b));
    if b == 0 {
      RotateByNone(n);
    } else {
      RotateExpression(n, false, b);
    }
  }

  lemma RotateByNone(n: u32)
    ensures RotateR(n, 0) == n && ShiftBy(ROR, n, false, 0).value == n
  {
    hide Bitwise, Pow2;
    Pow2At32();
    assert Pow2(0) == 1 by { Pow2Zero(); }
    WrapModulo(0, n);
    OrZero(n, 32);
  }

  /** The values of the 12-bit immediate operands; `(i >> 7) & 0x1e` is twice the rotation field. */
  method InitImmediates(table: array<u32>)
    requires table.Length == 4096
    modifies table
    ensures Cpu.TableReady(table)
  {
    hide ShiftBy, RotateR;
    var i := 0;
    while i < 4096
      invariant 0 <= i <= 4096
      invariant forall k :: 0 <= k < i ==> table[k] == ShiftBy(ROR, k % 256, false, 2 * (k / 256)).value
    {
      RotateRMeans(i % 256, 2 * (i / 256));
      table[i] := RotateR(i % 256, 2 * (i / 256));
      i := i + 1;
    }
  }

  /** Four times the number of bits set in each byte, counted one bit position after the other. */
  method InitBitList(table: array<nat>)
    requires table.Length == 256
    modifies table
    ensures forall x :: 0 <= x < 256 ==> table[x] == 4 * Count(x, 8)
  {
    hide Bit, BitAnd, Count, Pow2;
    var i := 0;
    while i < 256
      invariant 0 <= i <= 256 && forall x :: 0 <= x < i ==> table[x] == Count(x, 0)
    {
      CountStep(i, 0);
      table[i] := 0;
      i := i + 1;
    }
    var j := 1;
    ghost var k := 0;
    assert j == Pow2(k) by { Pow2Zero(); }
    while j < 256
      invariant 0 <= k <= 8 && j == Pow2(k)
      invariant forall x :: 0 <= x < 256 ==> table[x] == Count(x, k)
      decreases 8 - k
    {
      Doubling(k);
      CountPosition(table, j, k);
      j := 2 * j;
      k := k + 1;
    }
    Doubling(k);
    i := 0;
    while i < 256
      invariant 0 <= i <= 256
      invariant forall x :: 0 <= x < 256 ==> table[x] == if x < i then 4 * Count(x, 8) else Count(x, 8)
    {
      table[i] := table[i] * 4;
      i := i + 1;
    }
  }

  lemma Doubling(k: nat)
    ensures 2 * Pow2(k) == Pow2(k + 1)
    ensures k <= 8 ==> (Pow2(k) < 256 <==> k < 8) && Pow2(k) <= 256
  {
    hide Pow2;
    Pow2At32();
    Pow2Zero();
    Pow2Sum(1, k);
    if k < 8 {
      Pow2Sum(k, 8 - k);
      Pow2Sum(1, 7 - k);
      ProperFactor(Pow2(k), Pow2(7 - k));
    }
  }

  lemma ProperFactor(p: nat, q: nat)
    requires p >= 1 && q >= 1 && p * (2 * q) == 256
    ensures p < 256
  {
    assert p * (2 * q) == 2 * (p * q);
  }

  /** The inner loop: adds bit k to every count. */
  method CountPosition(table: array<nat>, j: u32, ghost k: nat)
    requires table.Length == 256 && k < 8 && j == Pow2(k)
    requires forall x :: 0 <= x < 256 ==> table[x] == Count(x, k)
    modifies table
    ensures forall x :: 0 <= x < 256 ==> table[x] == Count(x, k + 1)
  {
    hide Bit, Count, BitAnd, Pow2;
    var i := 0;
    while i < 256
      invariant 0 <= i <= 256
      invariant forall x :: 0 <= x < i ==> table[x] == Count(x, k + 1)
      invariant forall x :: i <= x < 256 ==> table[x] == Count(x, k)
    {
      AndTests(i, j, k);
      CountStep(i, k);
      if BitAnd(i, j) > 0 { table[i] := table[i] + 1; }
      i := i + 1;
    }
  }

  /** LSMNumRegs: four bytes for each register in the list. */
  lemma ListBytes(table: seq<nat>, list: nat)
    requires |table| == 256 && list < 0x1_0000
    requires forall x :: 0 <= x < 256 ==> table[x] == 4 * Count(x, 8)
    ensures table[list % 256] + table[list / 256] == 4 * Count(list, 16)
  {
    CountHalves(list, 8);
  }
}
