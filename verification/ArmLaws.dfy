/** What ARM instructions do, from their encodings to numbers and bits: laws that the programmer's model obeys. */
module ArmLaws {
  import opened Words
  import opened Shifter
  import opened Architecture
  import opened LongMultiply

  // ---- Data processing ---------------------------------------------------

  /** An unconditional operation on two registers: op{S} rd, rn, rm. */
  function AluWord(op: bv4, s: bv1, rn: bv4, rd: bv4, rm: bv4): bv32 {
    0xE000_0000 | ((op as bv32) << 21) | ((s as bv32) << 20) | ((rn as bv32) << 16) | ((rd as bv32) << 12)
    | (rm as bv32)
  }

  lemma AluFields(op: bv4, s: bv1, rn: bv4, rd: bv4, rm: bv4)
    ensures var w := FieldsOf(AluWord(op, s, rn, rd, rm));
      && w.cond == 14 && w.kind == 0 && w.op == op && w.s == s && w.rn == rn && w.rd == rd && w.rm == rm
      && w.bit4 == 0 && w.shift == 0 && w.amount == 0
  {
  }

  predicate IsSum(r: u32, exact: int) { r == exact || r == exact - TWO32 }

  predicate IsDifference(r: u32, exact: int) { r == exact || r == exact + TWO32 }

  /** The result of operation number op on x and y, told by its bits or by a congruence; the operations that compare
      have the results of EOR, AND, SUB and ADD. */
  ghost predicate Results(op: bv4, x: u32, y: u32, carry: bool, r: u32) {
    match op
    case 0 => forall i: nat :: i < 32 ==> (Bit(r, i) <==> Bit(x, i) && Bit(y, i))
    case 8 => forall i: nat :: i < 32 ==> (Bit(r, i) <==> Bit(x, i) && Bit(y, i))
    case 1 => forall i: nat :: i < 32 ==> (Bit(r, i) <==> Bit(x, i) != Bit(y, i))
    case 9 => forall i: nat :: i < 32 ==> (Bit(r, i) <==> Bit(x, i) != Bit(y, i))
    case 12 => forall i: nat :: i < 32 ==> (Bit(r, i) <==> Bit(x, i) || Bit(y, i))
    case 14 => forall i: nat :: i < 32 ==> (Bit(r, i) <==> Bit(x, i) && !Bit(y, i))
    case 13 => r == y
    case 15 => r + y == 0xFFFF_FFFF
    case 4 => IsSum(r, x + y)
    case 11 => IsSum(r, x + y)
    case 5 => IsSum(r, x + y + BitOf(carry))
    case 2 => IsDifference(r, x - y)
    case 10 => IsDifference(r, x - y)
    case 6 => IsDifference(r, x - y - 1 + BitOf(carry))
    case 3 => IsDifference(r, y - x)
    case 7 => IsDifference(r, y - x - 1 + BitOf(carry))
  }

  lemma BitsOfLogic(x: u32, y: u32, i: nat)
    requires i < 32
    ensures Bit(BitAnd(x, y), i) <==> Bit(x, i) && Bit(y, i)
    ensures Bit(BitOr(x, y), i) <==> Bit(x, i) || Bit(y, i)
    ensures Bit(BitXor(x, y), i) <==> Bit(x, i) != Bit(y, i)
    ensures Bit(BitNot(x), i) <==> !Bit(x, i)
  {
    hide Bitwise, Pow2, Bit;
    GateBit(Both, x, y, i);
    GateBit(Either, x, y, i);
    GateBit(Differ, x, y, i);
    Pow2At32();
    BitOfNot(x, 32, i);
  }

  lemma GateBit(g: Gate, x: u32, y: u32, i: nat)
    requires i < 32
    ensures Bit(Bitwise(g, x, y, 32), i) <==>
      match g
      case Both => Bit(x, i) && Bit(y, i)
      case Either => Bit(x, i) || Bit(y, i)
      case Differ => Bit(x, i) != Bit(y, i)
  {
    hide Bitwise, Pow2;
    BitwiseBit(g, x, y, 32, i);
    OneBit(g, From(x, i) % 2, From(y, i) % 2);
  }

  lemma OneBit(g: Gate, a: int, b: int)
    requires 0 <= a <= 1 && 0 <= b <= 1
    ensures g.Apply(a, b) == 1 <==>
      match g case Both => a == 1 && b == 1 case Either => a == 1 || b == 1 case Differ => a != b
  {
  }

  lemma {:induction false} BitOfNot(x: nat, n: nat, i: nat)
    requires i < n && x < Pow2(n)
    ensures 0 <= Pow2(n) - 1 - x && (Bit(Pow2(n) - 1 - x, i) <==> !Bit(x, i))
    decreases n
  {
    hide Pow2;
    Pow2Step(n - 1);
    var y := Pow2(n) - 1 - x;
    assert y / 2 == Pow2(n - 1) - 1 - x / 2;
    if i == 0 {
      Pow2Zero();
    } else {
      BitOfNot(x / 2, n - 1, i - 1);
      Halve(x, i);
      Halve(y, i);
    }
  }

  lemma LogicMeans(x: u32, y: u32)
    ensures Results(0, x, y, false, BitAnd(x, y)) && Results(1, x, y, false, BitXor(x, y))
    ensures Results(12, x, y, false, BitOr(x, y)) && Results(14, x, y, false, BitAnd(x, BitNot(y)))
    ensures Results(15, x, y, false, BitNot(y))
  {
    hide BitAnd, BitXor, BitOr, Bit;
    forall i: nat | i < 32
      ensures Bit(BitAnd(x, y), i) <==> Bit(x, i) && Bit(y, i)
      ensures Bit(BitOr(x, y), i) <==> Bit(x, i) || Bit(y, i)
      ensures Bit(BitXor(x, y), i) <==> Bit(x, i) != Bit(y, i)
      ensures Bit(BitAnd(x, BitNot(y)), i) <==> Bit(x, i) && !Bit(y, i)
    {
      BitsOfLogic(x, y, i);
      BitsOfLogic(x, BitNot(y), i);
      BitsOfLogic(y, y, i);
    }
  }

  lemma SumMeans(x: u32, y: u32, carry: bool)
    ensures var r := AddWith(x, y, carry).value; IsSum(r, x + y + BitOf(carry))
    ensures var r := SubWith(x, y, carry).value; IsDifference(r, x - y - 1 + BitOf(carry))
  {
  }

  /** Logical operations take C from the shifter and leave V alone. */
  lemma ComputesLogic(op: bv4, x: u32, y: Shifted, f: Flags)
    requires op in {0, 8, 1, 9, 12, 14, 13, 15}
    ensures var o := Compute(OpcodeOf(op), x, y, f);
      Results(op, x, y.value, f.c, o.value) && o.f == Flags(o.value >= TWO31, o.value == 0, y.carry, f.v)
  {
    hide Results, Compute, OpcodeOf, BitAnd, BitXor, BitOr, BitNot;
    LogicMeans(x, y.value);
    LogicOps(x, y, f);
    var o := Compute(OpcodeOf(op), x, y, f);
    SameResult(x, y.value, f.c, o.value);
  }

  /** The numbers of the operations (section A3.4). */
  lemma Opcodes()
    ensures OpcodeOf(0) == AND && OpcodeOf(1) == EOR && OpcodeOf(2) == SUB && OpcodeOf(3) == RSB
    ensures OpcodeOf(4) == ADD && OpcodeOf(5) == ADC && OpcodeOf(6) == SBC && OpcodeOf(7) == RSC
    ensures OpcodeOf(8) == TST && OpcodeOf(9) == TEQ && OpcodeOf(10) == CMP && OpcodeOf(11) == CMN
    ensures OpcodeOf(12) == ORR && OpcodeOf(13) == MOV && OpcodeOf(14) == BIC && OpcodeOf(15) == MVN
  {
  }

  lemma LogicOps(x: u32, y: Shifted, f: Flags)
    ensures Compute(OpcodeOf(0), x, y, f) == Logical(BitAnd(x, y.value), y.carry, f) == Compute(OpcodeOf(8), x, y, f)
    ensures Compute(OpcodeOf(1), x, y, f) == Logical(BitXor(x, y.value), y.carry, f) == Compute(OpcodeOf(9), x, y, f)
    ensures Compute(OpcodeOf(12), x, y, f) == Logical(BitOr(x, y.value), y.carry, f)
    ensures Compute(OpcodeOf(13), x, y, f) == Logical(y.value, y.carry, f)
    ensures Compute(OpcodeOf(14), x, y, f) == Logical(BitAnd(x, BitNot(y.value)), y.carry, f)
    ensures Compute(OpcodeOf(15), x, y, f) == Logical(BitNot(y.value), y.carry, f)
  {
    hide BitAnd, BitXor, BitOr, BitNot, Logical, OpcodeOf;
    Opcodes();
  }

  lemma ArithmeticOps(x: u32, y: Shifted, f: Flags)
    ensures Compute(OpcodeOf(4), x, y, f) == Arithmetic(AddWith(x, y.value, false)) == Compute(OpcodeOf(11), x, y, f)
    ensures Compute(OpcodeOf(5), x, y, f) == Arithmetic(AddWith(x, y.value, f.c))
    ensures Compute(OpcodeOf(2), x, y, f) == Arithmetic(SubWith(x, y.value, true)) == Compute(OpcodeOf(10), x, y, f)
    ensures Compute(OpcodeOf(6), x, y, f) == Arithmetic(SubWith(x, y.value, f.c))
    ensures Compute(OpcodeOf(3), x, y, f) == Arithmetic(SubWith(y.value, x, true))
    ensures Compute(OpcodeOf(7), x, y, f) == Arithmetic(SubWith(y.value, x, f.c))
  {
    hide AddWith, SubWith, Arithmetic, OpcodeOf;
    Opcodes();
  }

  /** TST and TEQ have the results of AND and EOR, and logical operations do not look at the carry. */
  lemma SameResult(x: u32, y: u32, carry: bool, r: u32)
    ensures Results(8, x, y, carry, r) == Results(0, x, y, false, r) == Results(0, x, y, carry, r)
    ensures Results(9, x, y, carry, r) == Results(1, x, y, false, r) == Results(1, x, y, carry, r)
    ensures Results(12, x, y, carry, r) == Results(12, x, y, false, r)
    ensures Results(14, x, y, carry, r) == Results(14, x, y, false, r)
    ensures Results(15, x, y, carry, r) == Results(15, x, y, false, r)
    ensures Results(13, x, y, carry, r) == (r == y)
  {
  }

  lemma ComputesArithmetic(op: bv4, x: u32, y: Shifted, f: Flags)
    requires op in {4, 11, 5, 2, 10, 6, 3, 7}
    ensures var o := Compute(OpcodeOf(op), x, y, f);
      && Results(op, x, y.value, f.c, o.value) && o.f.n == (o.value >= TWO31) && o.f.z == (o.value == 0)
  {
    if op == 4 || op == 11 || op == 5 { Adds(op, x, y, f); }
    else if op == 2 || op == 10 || op == 6 { Subtracts(op, x, y, f); }
    else { SubtractsReversed(op, x, y, f); }
  }

  lemma Adds(op: bv4, x: u32, y: Shifted, f: Flags)
    requires op in {4, 11, 5}
    ensures var o := Compute(OpcodeOf(op), x, y, f);
      && Results(op, x, y.value, f.c, o.value) && o.f.n == (o.value >= TWO31) && o.f.z == (o.value == 0)
  {
    hide AddWith, IsSum;
    SumMeans(x, y.value, f.c);
    SumMeans(x, y.value, false);
  }

  lemma Subtracts(op: bv4, x: u32, y: Shifted, f: Flags)
    requires op in {2, 10, 6}
    ensures var o := Compute(OpcodeOf(op), x, y, f);
      && Results(op, x, y.value, f.c, o.value) && o.f.n == (o.value >= TWO31) && o.f.z == (o.value == 0)
  {
    hide SubWith, IsDifference;
    SumMeans(x, y.value, f.c);
    SumMeans(x, y.value, true);
  }

  lemma SubtractsReversed(op: bv4, x: u32, y: Shifted, f: Flags)
    requires op in {3, 7}
    ensures var o := Compute(OpcodeOf(op), x, y, f);
      && Results(op, x, y.value, f.c, o.value) && o.f.n == (o.value >= TWO31) && o.f.z == (o.value == 0)
  {
    hide SubWith, IsDifference;
    SumMeans(y.value, x, f.c);
    SumMeans(y.value, x, true);
  }

  /** The instruction puts the result into rd, unless it compares, and changes the flags if it says so. */
  lemma AluActs(a: Core, op: bv4, s: bv1, rn: bv4, rd: bv4, rm: bv4) returns (o: Outcome)
    requires |a.r| == 15 && rn != 15 && rd != 15 && rm != 15 && (8 <= op <= 11 ==> s == 1)
    ensures Results(op, a.r[rn as nat], a.r[rm as nat], a.f.c, o.value)
    ensures o.f.n == (o.value >= TWO31) && o.f.z == (o.value == 0)
    ensures ArmStep(a, FieldsOf(AluWord(op, s, rn, rd, rm))) == Some(a.(
      pc := Wrap(a.pc + Size(a.thumb)), f := if s == 1 then o.f else a.f,
      r := if 8 <= op <= 11 then a.r else a.r[rd as nat := o.value]))
  {
    hide FieldsOf, AluWord, Compute, Results, Wrap, OpcodeOf;
    AluFields(op, s, rn, rd, rm);
    var w := FieldsOf(AluWord(op, s, rn, rd, rm));
    var x, y := a.r[rn as nat], Shifted(a.r[rm as nat], a.f.c);
    o := Compute(OpcodeOf(op), x, y, a.f);
    Computes(op, x, y, a.f);
    IsDataProcessing(a, w);
    Processes(a, w);
  }

  lemma IsDataProcessing(a: Core, w: Arm)
    requires |a.r| == 15 && w.cond == 14 && w.kind == 0 && w.bit4 == 0 && (8 <= w.op <= 11 ==> w.s == 1)
    ensures ArmStep(a, w) == DataProcessing(a, w)
  {
    hide DataProcessing, Multiply, MultiplyLong, BranchRegister;
  }

  lemma Processes(a: Core, w: Arm)
    requires |a.r| == 15 && w.kind == 0 && w.bit4 == 0 && w.shift == 0 && w.amount == 0
    requires w.rm != 15 && w.rn != 15 && w.rd != 15 && (8 <= w.op <= 11 ==> w.s == 1)
    ensures var o := Compute(OpcodeOf(w.op), a.r[w.rn as nat], Shifted(a.r[w.rm as nat], a.f.c), a.f);
      DataProcessing(a, w) == Some(a.(
        pc := Wrap(a.pc + Size(a.thumb)), f := if w.s == 1 then o.f else a.f,
        r := if 8 <= w.op <= 11 then a.r else a.r[w.rd as nat := o.value]))
  {
    hide Compute, Wrap, OpcodeOf, ShifterOperand, IsTest;
    Unshifted(a, w);
    Compares(w.op);
  }

  lemma Unshifted(a: Core, w: Arm)
    requires |a.r| == 15 && w.kind == 0 && w.bit4 == 0 && w.shift == 0 && w.amount == 0 && w.rm != 15
    ensures ShifterOperand(a, w) == Some(Shifted(a.r[w.rm as nat], a.f.c))
  {
  }

  lemma Compares(op: bv4)
    ensures IsTest(OpcodeOf(op)) <==> 8 <= op <= 11
  {
  }

  lemma Computes(op: bv4, x: u32, y: Shifted, f: Flags)
    ensures var o := Compute(OpcodeOf(op), x, y, f);
      && Results(op, x, y.value, f.c, o.value) && o.f.n == (o.value >= TWO31) && o.f.z == (o.value == 0)
  {
    hide Compute, Results;
    if op in {0, 8, 1, 9, 12, 14, 13, 15} { ComputesLogic(op, x, y, f); } else { ComputesArithmetic(op, x, y, f); }
  }

  // ---- Comparisons -------------------------------------------------------

  /** After CMP the conditions compare the operands, as unsigned or as signed numbers. */
  lemma Comparisons(x: u32, y: Shifted, f: Flags)
    ensures var g := Compute(OpcodeOf(10), x, y, f).f;
      && (Passes(0, g) <==> x == y.value) && (Passes(1, g) <==> x != y.value)
      && (Passes(2, g) <==> x >= y.value) && (Passes(3, g) <==> x < y.value)
      && (Passes(8, g) <==> x > y.value) && (Passes(9, g) <==> x <= y.value)
      && (Passes(10, g) <==> Signed(x) >= Signed(y.value)) && (Passes(11, g) <==> Signed(x) < Signed(y.value))
      && (Passes(12, g) <==> Signed(x) > Signed(y.value)) && (Passes(13, g) <==> Signed(x) <= Signed(y.value))
      && (Passes(6, g) <==> !(-TWO31 <= Signed(x) - Signed(y.value) < TWO31)) && (Passes(7, g) <==> !Passes(6, g))
  {
    hide Compute, SubWith, Signed;
    ArithmeticOps(x, y, f);
    Differences(x, y.value);
  }

  lemma Differences(x: u32, y: u32)
    ensures var s := SubWith(x, y, true);
      && (s.value == 0 <==> x == y) && (s.carry <==> x >= y)
      && (s.overflow <==> !(-TWO31 <= Signed(x) - Signed(y) < TWO31))
      && ((s.value >= TWO31) == s.overflow <==> Signed(x) >= Signed(y))
      && (Signed(x) == Signed(y) <==> x == y)
  {
  }

  /** After a comparison with zero the sign decides MI and PL; AL always passes. */
  lemma SignConditions(x: u32, carry: bool, f: Flags)
    ensures var g := Compute(OpcodeOf(10), x, Shifted(0, carry), f).f;
      (Passes(4, g) <==> Signed(x) < 0) && (Passes(5, g) <==> Signed(x) >= 0) && Passes(14, g)
  {
    hide Compute, SubWith;
    ArithmeticOps(x, Shifted(0, carry), f);
    SubExact(x, 0, true);
  }

  // ---- Numbers of two words ----------------------------------------------

  function SignedPair(lo: u32, hi: u32): int { lo + TWO32 * Signed(hi) }

  predicate FitsPair(s: int) { -TWO64 <= 2 * s < TWO64 }

  lemma AddExact(x: u32, y: u32, carry: bool)
    ensures var s := AddWith(x, y, carry);
      && s.value == x + y + BitOf(carry) - TWO32 * BitOf(s.carry)
      && (s.overflow <==> !FitsSigned(Signed(x) + Signed(y) + BitOf(carry)))
  {
    hide Signed, FitsSigned;
  }

  lemma SubExact(x: u32, y: u32, carry: bool)
    ensures var s := SubWith(x, y, carry);
      && s.value == x - y - BitOf(!carry) + TWO32 * BitOf(!s.carry)
      && (s.overflow <==> !FitsSigned(Signed(x) - Signed(y) - BitOf(!carry)))
  {
    hide Signed, FitsSigned;
  }

  /** The overflow of the upper words is that of the whole. */
  lemma Overflows(low: u32, high: int)
    ensures FitsPair(TWO32 * high + low) <==> FitsSigned(high)
  {
  }

  /** ADDS and ADCS add numbers of two words, with the carry and the overflow of the whole. */
  lemma AddsPairs(x0: u32, x1: u32, y0: Shifted, y1: Shifted, f: Flags)
    ensures var lo := Compute(OpcodeOf(4), x0, y0, f); var hi := Compute(OpcodeOf(5), x1, y1, lo.f);
      var sum := Joined(x0, x1) + Joined(y0.value, y1.value);
      && Joined(lo.value, hi.value) == (if sum < TWO64 then sum else sum - TWO64)
      && (hi.f.c <==> sum >= TWO64)
      && (hi.f.v <==> !FitsPair(SignedPair(x0, x1) + SignedPair(y0.value, y1.value)))
  {
    hide Compute, AddWith, Signed, FitsPair, FitsSigned;
    var lo := Compute(OpcodeOf(4), x0, y0, f);
    ArithmeticOps(x0, y0, f);
    ArithmeticOps(x1, y1, lo.f);
    AddExact(x0, y0.value, false);
    AddExact(x1, y1.value, lo.f.c);
    Overflows(lo.value, Signed(x1) + Signed(y1.value) + BitOf(lo.f.c));
  }

  /** SUBS and SBCS subtract them; C tells that there was no borrow. */
  lemma SubtractsPairs(x0: u32, x1: u32, y0: Shifted, y1: Shifted, f: Flags)
    ensures var lo := Compute(OpcodeOf(2), x0, y0, f); var hi := Compute(OpcodeOf(6), x1, y1, lo.f);
      var difference := Joined(x0, x1) - Joined(y0.value, y1.value);
      && Joined(lo.value, hi.value) == (if difference >= 0 then difference else difference + TWO64)
      && (hi.f.c <==> difference >= 0)
      && (hi.f.v <==> !FitsPair(SignedPair(x0, x1) - SignedPair(y0.value, y1.value)))
  {
    hide Compute, SubWith, Signed, FitsPair, FitsSigned;
    var lo := Compute(OpcodeOf(2), x0, y0, f);
    ArithmeticOps(x0, y0, f);
    ArithmeticOps(x1, y1, lo.f);
    SubExact(x0, y0.value, true);
    SubExact(x1, y1.value, lo.f.c);
    Overflows(lo.value, Signed(x1) - Signed(y1.value) - BitOf(!lo.f.c));
  }

  /** RSBS and RSCS subtract the other way round. */
  lemma SubtractsPairsReversed(x0: u32, x1: u32, y0: Shifted, y1: Shifted, f: Flags)
    ensures var lo := Compute(OpcodeOf(3), x0, y0, f); var hi := Compute(OpcodeOf(7), x1, y1, lo.f);
      var difference := Joined(y0.value, y1.value) - Joined(x0, x1);
      && Joined(lo.value, hi.value) == (if difference >= 0 then difference else difference + TWO64)
      && (hi.f.c <==> difference >= 0)
      && (hi.f.v <==> !FitsPair(SignedPair(y0.value, y1.value) - SignedPair(x0, x1)))
  {
    hide Compute, SubWith, Signed, FitsPair, FitsSigned;
    var lo := Compute(OpcodeOf(3), x0, y0, f);
    ArithmeticOps(x0, y0, f);
    ArithmeticOps(x1, y1, lo.f);
    SubExact(y0.value, x0, true);
    SubExact(y1.value, x1, lo.f.c);
    Overflows(lo.value, Signed(y1.value) - Signed(x1) - BitOf(!lo.f.c));
  }

  // ---- Products ----------------------------------------------------------

  /** MUL{S} rd, rm, rs and MLA{S} rd, rm, rs, rn. */
  function MulWord(accumulate: bv1, s: bv1, rd: bv4, rn: bv4, rs: bv4, rm: bv4): bv32 {
    0xE000_0090 | ((accumulate as bv32) << 21) | ((s as bv32) << 20) | ((rd as bv32) << 16) | ((rn as bv32) << 12)
    | ((rs as bv32) << 8) | (rm as bv32)
  }

  /** UMULL, UMLAL, SMULL and SMLAL {S} lo, hi, rm, rs. */
  function LongWord(signed: bv1, accumulate: bv1, s: bv1, hi: bv4, lo: bv4, rs: bv4, rm: bv4): bv32 {
    0xE080_0090 | ((signed as bv32) << 22) | ((accumulate as bv32) << 21) | ((s as bv32) << 20)
    | ((hi as bv32) << 16) | ((lo as bv32) << 12) | ((rs as bv32) << 8) | (rm as bv32)
  }

  lemma MulFields(accumulate: bv1, s: bv1, rd: bv4, rn: bv4, rs: bv4, rm: bv4)
    ensures var w := FieldsOf(MulWord(accumulate, s, rd, rn, rs, rm));
      && w.cond == 14 && w.kind == 0 && w.op == (if accumulate == 1 then 1 else 0) && w.s == s
      && w.rn == rd && w.rd == rn && w.rs == rs && w.rm == rm && w.bit4 == 1 && w.bit7 == 1 && w.shift == 0
  {
  }

  lemma LongFields(signed: bv1, accumulate: bv1, s: bv1, hi: bv4, lo: bv4, rs: bv4, rm: bv4)
    ensures var w := FieldsOf(LongWord(signed, accumulate, s, hi, lo, rs, rm));
      && w.cond == 14 && w.kind == 0 && w.s == s && w.rn == hi && w.rd == lo
      && w.rs == rs && w.rm == rm && w.bit4 == 1 && w.bit7 == 1 && w.shift == 0
      && 4 <= w.op <= 7 && (w.op & 2 != 0 <==> signed == 1) && (w.op & 1 != 0 <==> accumulate == 1)
  {
  }

  /** MUL gives the product of the two registers modulo 2^32, MLA adds a third one. */
  lemma MulActs(a: Core, accumulate: bv1, s: bv1, rd: bv4, rn: bv4, rs: bv4, rm: bv4)
    requires |a.r| == 15 && rd != 15 && rs != 15 && rm != 15 && (accumulate == 1 ==> rn != 15)
    ensures var exact := a.r[rm as nat] as int * a.r[rs as nat] + if accumulate == 1 then a.r[rn as nat] else 0;
      var x := exact % TWO32;
      ArmStep(a, FieldsOf(MulWord(accumulate, s, rd, rn, rs, rm))) == Some(a.(
        pc := Wrap(a.pc + Size(a.thumb)), r := a.r[rd as nat := x],
        f := if s == 1 then a.f.(n := x >= TWO31, z := x == 0) else a.f))
  {
    hide FieldsOf, MulWord;
    MulFields(accumulate, s, rd, rn, rs, rm);
    var w := FieldsOf(MulWord(accumulate, s, rd, rn, rs, rm));
    Multiplies(a, w);
    assert ArmStep(a, w) == Multiply(a, w);
  }

  lemma Multiplies(a: Core, w: Arm)
    requires |a.r| == 15 && w.rn != 15 && w.rs != 15 && w.rm != 15 && w.shift == 0
    requires w.op == 0 || (w.op == 1 && w.rd != 15)
    ensures var exact := a.r[w.rm as nat] as int * a.r[w.rs as nat] + if w.op == 1 then a.r[w.rd as nat] else 0;
      var x := exact % TWO32;
      Multiply(a, w) == Some(a.(
        pc := Wrap(a.pc + Size(a.thumb)), r := a.r[w.rn as nat := x],
        f := if w.s == 1 then a.f.(n := x >= TWO31, z := x == 0) else a.f))
  {
  }

  /** The long forms leave the exact product of the two registers, signed or not, in the two others, modulo 2^64, or
      add it to what they hold. */
  lemma LongActs(a: Core, signed: bv1, accumulate: bv1, s: bv1, hi: bv4, lo: bv4, rs: bv4, rm: bv4)
    requires |a.r| == 15 && hi != 15 && lo != 15 && rs != 15 && rm != 15 && hi != lo
    ensures var x, y := a.r[rm as nat], a.r[rs as nat];
      var product: int := if signed == 1 then Signed(x) * Signed(y) else x as int * y;
      var total := (product + if accumulate == 1 then Joined(a.r[lo as nat], a.r[hi as nat]) else 0) % TWO64;
      && 0 <= total / TWO32 < TWO32
      && ArmStep(a, FieldsOf(LongWord(signed, accumulate, s, hi, lo, rs, rm))) == Some(a.(
        pc := Wrap(a.pc + Size(a.thumb)), r := a.r[lo as nat := total % TWO32][hi as nat := total / TWO32],
        f := if s == 1 then a.f.(n := total >= TWO64 / 2, z := total == 0) else a.f))
  {
    hide FieldsOf, LongWord, Signed, Joined, Wrap;
    LongFields(signed, accumulate, s, hi, lo, rs, rm);
    var w := FieldsOf(LongWord(signed, accumulate, s, hi, lo, rs, rm));
    MultipliesLong(a, w, signed == 1, accumulate == 1);
    assert ArmStep(a, w) == MultiplyLong(a, w);
  }

  lemma MultipliesLong(a: Core, w: Arm, signed: bool, accumulate: bool)
    requires |a.r| == 15 && w.rn != 15 && w.rd != 15 && w.rs != 15 && w.rm != 15 && w.rn != w.rd && w.shift == 0
    requires 4 <= w.op <= 7 && (w.op & 2 != 0 <==> signed) && (w.op & 1 != 0 <==> accumulate)
    ensures var x, y := a.r[w.rm as nat], a.r[w.rs as nat];
      var product: int := if signed then Signed(x) * Signed(y) else x as int * y;
      var total := (product + if accumulate then Joined(a.r[w.rd as nat], a.r[w.rn as nat]) else 0) % TWO64;
      && 0 <= total / TWO32 < TWO32
      && MultiplyLong(a, w) == Some(a.(
        pc := Wrap(a.pc + Size(a.thumb)), r := a.r[w.rd as nat := total % TWO32][w.rn as nat := total / TWO32],
        f := if w.s == 1 then a.f.(n := total >= TWO64 / 2, z := total == 0) else a.f))
  {
    hide Signed, Joined, Wrap;
  }

  // ---- Branches ----------------------------------------------------------

  /** A branch whose offset field is -2 branches to itself, and BL leaves the address after it in r14. */
  lemma BranchesToItself(a: Core)
    requires WellFormed(a) && !a.thumb
    ensures ArmStep(a, FieldsOf(0xEAFF_FFFE)) == Some(a)
    ensures ArmStep(a, FieldsOf(0xEBFF_FFFE)) == Some(a.(r := a.r[14 := Wrap(a.pc + 4)]))
  {
    hide BranchRegister, DataProcessing, Multiply, MultiplyLong;
  }

  /** B{L}: the sign and the low bits of the number of words. */
  function BranchWord(link: bv1, sign: bv1, low: bv23): bv32 {
    0xEA00_0000 | ((link as bv32) << 24) | ((sign as bv32) << 23) | (low as bv32)
  }

  lemma BranchFields(link: bv1, sign: bv1, low: bv23)
    ensures var w := FieldsOf(BranchWord(link, sign, low));
      && w.cond == 14 && w.kind == 5 && w.low23 == low
      && (w.op & 8 != 0 <==> link == 1) && (w.op & 4 != 0 <==> sign == 1)
  {
  }

  /** The target is so many words from the second instruction after the branch. */
  lemma BranchReaches(a: Core, link: bv1, sign: bv1, low: bv23)
    requires |a.r| == 15 && !a.thumb
    ensures var words: int := low as int - if sign == 1 then 0x80_0000 else 0;
      ArmStep(a, FieldsOf(BranchWord(link, sign, low))) == Some(a.(
        pc := Wrap(a.pc + 8 + 4 * words), r := if link == 1 then a.r[14 := Wrap(a.pc + 4)] else a.r))
  {
    hide FieldsOf, BranchWord, Wrap, BranchRegister, DataProcessing, Multiply, MultiplyLong;
    BranchFields(link, sign, low);
  }

  /** BX rm and BLX rm. */
  function ExchangeWord(link: bool, rm: bv4): bv32 { (if link then 0xE12F_FF30 else 0xE12F_FF10) | (rm as bv32) }

  lemma ExchangeFields(link: bool, rm: bv4)
    ensures var w := FieldsOf(ExchangeWord(link, rm));
      && w.cond == 14 && w.kind == 0 && w.op == 9 && w.s == 0 && w.bit4 == 1 && w.bit7 == 0 && w.ones == 0xFFF
      && w.rm == rm && w.shift == if link then 1 else 0
  {
  }

  /** An odd target is Thumb code, a multiple of four ARM code; BLX leaves the address after it in r14. */
  lemma Exchanges(a: Core, link: bool, rm: bv4)
    requires WellFormed(a) && !a.thumb && rm != 15
    requires var target := a.r[rm as nat]; target % 2 == 1 || target % 4 == 0
    ensures var target := a.r[rm as nat]; var b := ArmStep(a, FieldsOf(ExchangeWord(link, rm)));
      b.Some? && b == Some(a.(
        pc := target - target % 2, thumb := target % 2 == 1, psr := b.value.psr,
        r := if link then a.r[14 := Wrap(a.pc + 4)] else a.r))
  {
    hide FieldsOf, ExchangeWord, Wrap, DataProcessing, Multiply, MultiplyLong, StatusWord;
    ExchangeFields(link, rm);
  }

  /** A call by BL or BLX returns by BX r14, to the instruction after it. */
  lemma CallReturns(a: Core, b: Core)
    requires WellFormed(a) && !a.thumb && |b.r| == 15 && b.pc % 4 == 0 && !b.thumb && b.r[14] == Wrap(a.pc + 4)
    ensures var c := ArmStep(b, FieldsOf(ExchangeWord(false, 14)));
      c.Some? && c.value.pc == Wrap(a.pc + 4) && !c.value.thumb
  {
    hide FieldsOf, ExchangeWord, ArmStep, Wrap;
    Aligned(a.pc, false);
    AlignedIsEven(b.r[14]);
    Exchanges(b, false, 14);
  }

  lemma AlignedIsEven(x: u32)
    requires x % 4 == 0
    ensures x % 2 == 0
  {
    SameRemainder(0, 2 * (x / 4), 2);
  }

  /** An instruction whose condition fails does nothing. */
  lemma Skips(a: Core, w: Arm)
    requires |a.r| == 15 && w.cond != 15 && !Passes(w.cond, a.f)
    ensures ArmStep(a, w) == Some(a.(pc := Wrap(a.pc + Size(a.thumb))))
  {
    hide Passes, Wrap, BranchRegister, DataProcessing, Multiply, MultiplyLong, Branch;
  }

  /** B in Thumb state: the target is so many halfwords from the second instruction after the branch. */
  function ThumbBranchWord(sign: bv1, low: bv10): bv32 { 0xE000 | ((sign as bv32) << 10) | (low as bv32) }

  function ThumbConditionWord(cond: bv4, sign: bv1, low: bv7): bv32 {
    0xD000 | ((cond as bv32) << 8) | ((sign as bv32) << 7) | (low as bv32)
  }

  lemma ThumbFields(cond: bv4, sign: bv1, low: bv10, low7: bv7)
    ensures var t := ThumbFieldsOf(ThumbBranchWord(sign, low)); t.op == 28 && t.bit10 == sign && t.imm10 == low
    ensures var t := ThumbFieldsOf(ThumbConditionWord(cond, sign, low7));
      26 <= t.op <= 27 && t.op4 == cond && t.bit7 == sign && t.imm7 == low7 as bv8
  {
  }

  lemma Widened(low: bv7)
    ensures (low as bv8) as nat == low as nat
  {
  }

  lemma ThumbBranchReaches(a: Core, sign: bv1, low: bv10)
    requires |a.r| == 15 && a.thumb
    ensures LowRegisters(ThumbFieldsOf(ThumbBranchWord(sign, low)))
    ensures var halfwords: int := low as int - if sign == 1 then 0x400 else 0;
      ThumbStep(a, ThumbFieldsOf(ThumbBranchWord(sign, low))) == Some(a.(pc := Wrap(a.pc + 4 + 2 * halfwords)))
  {
    hide ThumbFieldsOf, ThumbBranchWord, ThumbStep, ThumbBranch, LowRegisters, Wrap;
    var t := ThumbFieldsOf(ThumbBranchWord(sign, low));
    ThumbFieldsAreLow(ThumbBranchWord(sign, low));
    ThumbFields(0, sign, low, 0);
    BranchStep(a, t);
    Reaches(a, t);
  }

  lemma BranchStep(a: Core, t: Thumb)
    requires |a.r| == 15 && LowRegisters(t) && t.op >= 26
    ensures ThumbStep(a, t) == ThumbBranch(a, t)
  {
    hide ThumbBranch, ThumbAlu, ThumbHigh, AddWith, SubWith, Wrap, AlignDown;
  }

  lemma Moves(a: Core, low: nat, back: bool, sign: nat)
    requires a.thumb
    ensures Relative(a, low, back, sign) == a.(pc := Wrap(a.pc + 4 + 2 * low - if back then sign else 0))
  {
    hide Wrap;
    WrapAdd(2 * low - (if back then sign as int else 0), a.pc + 4);
  }

  lemma Reaches(a: Core, t: Thumb)
    requires |a.r| == 15 && a.thumb && t.op == 28
    ensures var halfwords: int := t.imm10 as int - if t.bit10 == 1 then 0x400 else 0;
      ThumbBranch(a, t) == Some(a.(pc := Wrap(a.pc + 4 + 2 * halfwords)))
  {
    hide Relative, Wrap;
    Moves(a, t.imm10 as nat, t.bit10 == 1, 0x800);
  }

  lemma ReachesIf(a: Core, t: Thumb)
    requires |a.r| == 15 && a.thumb && 26 <= t.op <= 27 && t.op4 < 14
    ensures var halfwords: int := t.imm7 as int - if t.bit7 == 1 then 0x80 else 0;
      ThumbBranch(a, t) == Some(a.(pc := Wrap(a.pc + if Passes(t.op4, a.f) then 4 + 2 * halfwords else 2)))
  {
    hide Relative, Passes, LinkExchange, LinkHigh, LinkLow, Wrap;
    Moves(a, t.imm7 as nat, t.bit7 == 1, 0x100);
  }

  lemma ThumbConditionReaches(a: Core, cond: bv4, sign: bv1, low: bv7)
    requires |a.r| == 15 && a.thumb && cond < 14
    ensures LowRegisters(ThumbFieldsOf(ThumbConditionWord(cond, sign, low)))
    ensures var halfwords: int := low as int - if sign == 1 then 0x80 else 0;
      ThumbStep(a, ThumbFieldsOf(ThumbConditionWord(cond, sign, low))) ==
        Some(a.(pc := Wrap(a.pc + if Passes(cond, a.f) then 4 + 2 * halfwords else 2)))
  {
    hide ThumbFieldsOf, ThumbConditionWord, ThumbStep, ThumbBranch, LowRegisters, Passes, Wrap;
    var t := ThumbFieldsOf(ThumbConditionWord(cond, sign, low));
    ThumbFieldsAreLow(ThumbConditionWord(cond, sign, low));
    ThumbFields(cond, sign, 0, low);
    Widened(low);
    BranchStep(a, t);
    ReachesIf(a, t);
  }
}
