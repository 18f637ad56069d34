/** The interpreter of src/arm11/armemu.c for data processing, multiplication and branches, ARM and Thumb:
    the register file, the separately kept flags, the prefetch discipline that keeps r15 ahead of the
    instruction being executed, and the proof that it implements the programmer's model. */
module Cpu {
  import opened Words
  import opened Shifter
  import opened Architecture
  import opened ThumbDecoder
  import opened Runs
  import opened LongMultiply

  // Ways to start the next instruction (src/arm11/armemu.h:277-282).
  const PCINCED: bv8 := 2
  const PRIMEPIPE: bv8 := 4
  const RESUME: bv8 := 8

  predicate Neg(x: u32) { Shr(x, 31) != 0 }
  predicate Pos(x: u32) { Shr(BitNot(x), 31) != 0 }

  lemma SignBit(x: u32)
    ensures Neg(x) <==> x >= TWO31
    ensures Pos(x) <==> x < TWO31
  {
    Pow2At32();
  }

  /** `x | 1` */
  function SetBit0(x: u32): u32 { if x % 2 == 0 then x + 1 else x }

  lemma CallReturn(a: Core)
    ensures ReturnAddress(a) == if a.thumb then SetBit0(Wrap(a.pc + 2)) else Wrap(a.pc + 4)
  {
  }

  /** After a branch with exchange to any target, which is rounded down to an address of its instruction set. */
  function Branched(r: seq<u32>, src: u32, f: Flags, o: Others): Core {
    var thumb := src % 2 == 1;
    Core(r, AlignDown(src, Size(thumb)), f, thumb, o, StatusWord(f, thumb, o))
  }

  /** Where an exchange goes, if the manual says so. */
  lemma ExchangeMeans(a: Core, src: u32)
    ensures Exchange(a, src) == if src % 4 == 2 then None else Some(Branched(a.r, src, a.f, a.other))
  {
    hide AlignDown, Exchange, StatusWord;
    Remainders(src);
    if src % 2 == 1 {
      OddTarget(src);
      OddExchange(a, src);
    } else {
      EvenExchange(a, src);
      if src % 4 == 0 { WordTarget(src); }
    }
  }

  lemma Remainders(x: u32)
    ensures x % 2 == 1 ==> x % 4 != 2 && x % 4 != 0
    ensures x % 2 == 0 ==> x % 4 == 0 || x % 4 == 2
  {
    SameRemainder(x % 4, 2 * (x / 4), 2);
  }

  lemma OddExchange(a: Core, src: u32)
    requires src % 2 == 1
    ensures Exchange(a, src) == Some(Refreshed(a.(thumb := true, pc := src - 1)))
  {
    hide StatusWord;
  }

  lemma EvenExchange(a: Core, src: u32)
    requires src % 2 == 0
    ensures Exchange(a, src) == if src % 4 == 0 then Some(Refreshed(a.(thumb := false, pc := src))) else None
  {
    hide StatusWord;
  }

  lemma OddTarget(x: u32)
    requires x % 2 == 1
    ensures AlignDown(x, 2) == x - 1
  {
  }

  lemma WordTarget(x: u32)
    requires x % 4 == 0
    ensures AlignDown(x, 4) == x
  {
  }

  lemma BitIsShr(x: u32, n: nat)
    ensures Bit(x, n) == (Shr(x, n) % 2 == 1)
  {
  }

  /** A right shift by 1..32: the value, and the bit that falls out last. */
  lemma LsrOut(x: u32, c: bool, n: nat)
    requires 1 <= n <= 32
    ensures ShiftBy(LSR, x, c, n).value == (if n == 32 then 0 else Shr(x, n))
    ensures ShiftBy(LSR, x, c, n).carry == (Shr(x, n - 1) % 2 == 1)
    ensures n == 32 ==> (Shr(x, 31) == 1 <==> Shr(x, 31) % 2 == 1)
  {
    LsrClosed(x, c, n);
    if n == 32 { LsrLarge(x, c, 32); }
    Pow2At32();
  }

  /** An entry of the immediate table is a rotated byte; the carry is its sign unless it is not rotated. */
  lemma TableEntry(imm8: nat, rot: nat, c: bool)
    requires imm8 < 256 && rot < 16
    ensures var i, s := rot * 256 + imm8, ShiftBy(ROR, imm8, c, 2 * rot);
      && 0 <= i < 4096 && i % 256 == imm8 && i / 256 == rot
      && s.value == ShiftBy(ROR, i % 256, false, 2 * (i / 256)).value
      && s.carry == (if i > 255 then s.value >= TWO31 else c)
  {
    var i := rot * 256 + imm8;
    DivUnique(i, 256, rot, imm8);
    ValueIgnoresCarry(ROR, imm8, c, false, 2 * rot);
    if rot > 0 { RorCarry(imm8, c, 2 * rot); }
  }

  /** Carry and overflow of an addition, from the signs of the operands and of the result. */
  lemma AddSigns(a: u32, b: u32, c: bool)
    ensures var s, n, m := AddWith(a, b, c), a >= TWO31, b >= TWO31;
      var r := s.value >= TWO31;
      && (s.carry <==> (n && m) || (n && !r) || (m && !r))
      && (s.overflow <==> (n && m && !r) || (!n && !m && r))
  {
    var exact := a + b + BitOf(c);
    assert Wrap(exact) == if exact >= TWO32 then exact - TWO32 else exact;
  }

  /** Borrow and overflow of a subtraction likewise. */
  lemma SubSigns(a: u32, b: u32, c: bool)
    ensures var s, n, m := SubWith(a, b, c), a >= TWO31, b >= TWO31;
      var r := s.value >= TWO31;
      && (s.carry <==> (n && !m) || (n && !r) || (!m && !r))
      && (s.overflow <==> (n && !m && !r) || (!n && m && r))
  {
    var exact := a - b - BitOf(!c);
    assert Wrap(exact) == if exact < 0 then exact + TWO32 else exact;
  }

  lemma SmallSum(a: u32, b: u32, c: bool)
    requires a < 0x4000_0000 && b < 0x4000_0000
    ensures var s := AddWith(a, b, c); !s.carry && !s.overflow && s.value < TWO31
  {
  }

  lemma IndexInjective(i: bv4, j: bv4)
    requires i != 15 && j != 15
    ensures Index(i) == Index(j) <==> i == j
  {
  }

  lemma PartsOf(r: seq<u32>, lo: nat, hi: nat, x: int, s: seq<u32>)
    requires lo < |r| && hi < |r| && lo != hi && 0 <= x < TWO64 && s == r[lo := x % TWO32][hi := x / TWO32]
    ensures s[lo] == x % TWO32 && s[hi] == x / TWO32
  {
  }

  lemma Overwrite(r: seq<u32>, s: seq<u32>, lo: nat, hi: nat, x: u32, y: u32)
    requires |s| == |r| && lo < |r| && hi < |r| && forall i :: 0 <= i < |r| && i != lo && i != hi ==> s[i] == r[i]
    ensures s[lo := x][hi := y] == r[lo := x][hi := y]
  {
  }

  /** The immediate table holds every byte rotated right by every even amount. */
  ghost predicate TableReady(table: array<u32>)
    reads table
  {
    && table.Length == 4096
    && forall i :: 0 <= i < 4096 ==> table[i] == ShiftBy(ROR, i % 256, false, 2 * (i / 256)).value
  }

  /** The programmer's view when a program starts: ARM state, all registers but the PC and the stack pointer zero. */
  function InitialCore(pc: u32, sp: u32): (a: Core)
    ensures pc % 4 == 0 ==> WellFormed(a)
  {
    Core(seq(15, i => if i == 13 then sp else 0), pc, Flags(false, false, false, false), false, RESET_BITS, RESET_PSR)
  }

  class State {
    const Reg: array<u32>
    const ImmedTable: array<u32>
    var NFlag: bool
    var ZFlag: bool
    var CFlag: bool
    var VFlag: bool
    var TFlag: bool
    var QFlag: bool
    var GEFlag: u32
    var EFlag: bool
    var AFlag: bool
    var IFFlags: u2
    var Cpsr: u32
    var NextInstr: bv8
    var pc: u32

    /** arm11_Init: all registers and flags are zero, interrupts are off, and the pipeline is to be filled. */
    constructor (table: array<u32>)
      requires TableReady(table)
      ensures Ready() && fresh(Reg) && ImmedTable == table && NextInstr == RESUME
      ensures Reg[..] == seq(16, _ => 0) && pc == 0 && Psr() == Flags(false, false, false, false) && !TFlag
      ensures Bits() == RESET_BITS && Cpsr == RESET_PSR && Between() == InitialCore(0, 0)
    {
      hide ShiftBy, FlagsIn, BitsIn, ThumbIn, TableReady, Wrap;
      Reg := new u32[16](_ => 0);
      ImmedTable := table;
      NFlag, ZFlag, CFlag, VFlag, TFlag := false, false, false, false, false;
      QFlag, GEFlag, EFlag, AFlag, IFFlags, Cpsr := false, 0, false, false, 0, 0xD3;
      NextInstr, pc := RESUME, 0;
      new;
      ResetParts();
      CpsrAltered();
      assert Reg[..15] == seq(15, i => if i == 13 then 0 else 0);
    }

    /** ARMul_CPSRAltered: takes the flags out of the status word, E and A excepted. */
    method CpsrAltered()
      modifies this`NFlag, this`ZFlag, this`CFlag, this`VFlag, this`TFlag, this`QFlag, this`GEFlag, this`IFFlags
      ensures Psr() == FlagsIn(Cpsr) && TFlag == ThumbIn(Cpsr) && Bits() == BitsIn(Cpsr, EFlag, AFlag)
    {
      hide Field, GeBits;
      IFFlags := Field(Cpsr, 0x40, 4);
      NFlag, ZFlag := Field(Cpsr, 0x8000_0000, 2) != 0, Field(Cpsr, 0x4000_0000, 2) != 0;
      CFlag, VFlag := Field(Cpsr, 0x2000_0000, 2) != 0, Field(Cpsr, 0x1000_0000, 2) != 0;
      QFlag := Field(Cpsr, 0x0800_0000, 2) != 0;
      GEFlag := GeBits(Cpsr);
      TFlag := Field(Cpsr, 0x20, 2) != 0;
    }

    /** arm11_SetPCSP. When the pipeline is to be filled, the next instruction is the one at the PC. */
    method SetPcSp(pc: u32, sp: u32)
      requires Valid()
      modifies this`pc, Reg
      ensures Valid() && this.pc == pc && Reg[..] == old(Reg[..])[13 := sp][15 := pc]
      ensures old(Ready()) && NextInstr >= PRIMEPIPE && pc % Size(TFlag) == 0 ==>
        Ready() && Between() == old(Between()).(r := old(Between()).r[13 := sp], pc := pc)
    {
      hide TableReady;
      Reg[13] := sp;
      Reg[15] := pc;
      this.pc := pc;
    }

    ghost predicate Valid()
      reads this, Reg, ImmedTable
    {
      Reg.Length == 16 && Reg != ImmedTable && TableReady(ImmedTable)
    }

    ghost function Psr(): Flags
      reads this
    {
      Flags(NFlag, ZFlag, CFlag, VFlag)
    }

    ghost function Bits(): Others
      reads this
    {
      Others(QFlag, GEFlag, EFlag, AFlag, IFFlags)
    }

    /** The programmer's view while the instruction at `pc` executes. */
    ghost function Current(): Core
      requires Reg.Length == 16
      reads this, Reg
    {
      Core(Reg[..15], pc, Psr(), TFlag, Bits(), Cpsr)
    }

    /** The programmer's view between instructions: its PC is the instruction that comes next. */
    ghost function Between(): Core
      requires Reg.Length == 16
      reads this, Reg
    {
      Core(Reg[..15], if NextInstr < PRIMEPIPE then Wrap(pc + Size(TFlag)) else Reg[15], Psr(), TFlag, Bits(), Cpsr)
    }

    /** r15 is two instructions ahead, or three once it has been advanced for the next fetch. */
    ghost predicate InSequence()
      reads this, Reg, ImmedTable
    {
      && Valid()
      && ((NextInstr == 0 && Reg[15] == Wrap(pc + 2 * Size(TFlag)))
          || (NextInstr == PCINCED && Reg[15] == Wrap(pc + 3 * Size(TFlag))))
    }

    /** An instruction is about to be executed. */
    ghost predicate Executing()
      reads this, Reg, ImmedTable
    {
      Valid() && NextInstr == 0 && Reg[15] == Wrap(pc + 2 * Size(TFlag)) && WellFormed(Current())
    }

    /** Between two instructions, or after leaving the interpreter loop. */
    ghost predicate Ready()
      reads this, Reg, ImmedTable
    {
      && Valid() && WellFormed(Between())
      && (NextInstr < PCINCED ==> Reg[15] == Wrap(pc + 2 * Size(TFlag)))
      && (PCINCED <= NextInstr < PRIMEPIPE ==> Reg[15] == Wrap(pc + 3 * Size(TFlag)))
    }

    /** After the instruction a, with the pipeline in sequence. */
    lemma Sequenced(a: Core)
      requires Valid() && NextInstr < PCINCED && Reg[15] == Wrap(pc + 2 * Size(TFlag))
      requires WellFormed(a) && pc == a.pc && TFlag == a.thumb && Bits() == a.other && Cpsr == a.psr
      ensures Ready() && Between() == Next(a).(r := Reg[..15], f := Psr())
    {
      hide TableReady;
      NextIsWellFormed(a);
    }

    /** Writes a register other than the PC. */
    method WriteRegister(i: nat, x: u32)
      requires Ready() && i < 15
      modifies Reg
      ensures Ready() && Between() == old(Between()).(r := old(Between()).r[i := x])
    {
      hide TableReady, Wrap;
      Reg[i] := x;
    }

    // ---- Flags -----------------------------------------------------------

    method NegZero(result: u32)
      modifies this`NFlag, this`ZFlag
      ensures NFlag == (result >= TWO31) && ZFlag == (result == 0)
    {
      SignBit(result);
      if Neg(result) {
        NFlag, ZFlag := true, false;
      } else if result == 0 {
        NFlag, ZFlag := false, true;
      } else {
        NFlag, ZFlag := false, false;
      }
    }

    method AddCarry(a: u32, b: u32, result: u32, ghost c: bool)
      requires result == AddWith(a, b, c).value
      modifies this`CFlag
      ensures CFlag == AddWith(a, b, c).carry
    {
      hide AddWith, SubWith, Neg, Pos, Shr;
      AddSigns(a, b, c);
      SignBit(a);
      SignBit(b);
      SignBit(result);
      CFlag := (Neg(a) && Neg(b)) || (Neg(a) && Pos(result)) || (Neg(b) && Pos(result));
    }

    method AddOverflow(a: u32, b: u32, result: u32, ghost c: bool)
      requires result == AddWith(a, b, c).value
      modifies this`VFlag
      ensures VFlag == AddWith(a, b, c).overflow
    {
      hide AddWith, SubWith, Neg, Pos, Shr;
      AddSigns(a, b, c);
      SignBit(a);
      SignBit(b);
      SignBit(result);
      VFlag := (Neg(a) && Neg(b) && Pos(result)) || (Pos(a) && Pos(b) && Neg(result));
    }

    method SubCarry(a: u32, b: u32, result: u32, ghost c: bool)
      requires result == SubWith(a, b, c).value
      modifies this`CFlag
      ensures CFlag == SubWith(a, b, c).carry
    {
      hide AddWith, SubWith, Neg, Pos, Shr;
      SubSigns(a, b, c);
      SignBit(a);
      SignBit(b);
      SignBit(result);
      CFlag := (Neg(a) && Pos(b)) || (Neg(a) && Pos(result)) || (Pos(b) && Pos(result));
    }

    method SubOverflow(a: u32, b: u32, result: u32, ghost c: bool)
      requires result == SubWith(a, b, c).value
      modifies this`VFlag
      ensures VFlag == SubWith(a, b, c).overflow
    {
      hide AddWith, SubWith, Neg, Pos, Shr;
      SubSigns(a, b, c);
      SignBit(a);
      SignBit(b);
      SignBit(result);
      VFlag := (Neg(a) && Pos(b) && Pos(result)) || (Pos(a) && Neg(b) && Neg(result));
    }

    /** The flags of ADDS, ADCS and CMN: carry and overflow are only computed when an operand is large. */
    method AddFlags(lhs: u32, rhs: u32, dest: u32, ghost c: bool)
      requires dest == AddWith(lhs, rhs, c).value
      modifies this`NFlag, this`ZFlag, this`CFlag, this`VFlag
      ensures Psr() == Arithmetic(AddWith(lhs, rhs, c)).f
    {
      hide Neg, Shr, BitOr, AddWith;
      ZFlag := dest == 0;
      OrTop30(lhs, rhs);
      SignBit(dest);
      if Shr(BitOr(lhs, rhs), 30) != 0 {
        NFlag := Neg(dest);
        AddCarry(lhs, rhs, dest, c);
        AddOverflow(lhs, rhs, dest, c);
      } else {
        SmallSum(lhs, rhs, c);
        NFlag, CFlag, VFlag := false, false, false;
      }
    }

    /** Carry and overflow of SUBS, SBCS, RSBS, RSCS and CMP. */
    method SubFlags(lhs: u32, rhs: u32, dest: u32, ghost c: bool)
      requires dest == SubWith(lhs, rhs, c).value
      modifies this`CFlag, this`VFlag
      ensures CFlag == SubWith(lhs, rhs, c).carry && VFlag == SubWith(lhs, rhs, c).overflow
    {
      OrTop31(rhs, lhs);
      if lhs >= rhs || Shr(BitOr(rhs, lhs), 31) != 0 {
        SubCarry(lhs, rhs, dest, c);
        SubOverflow(lhs, rhs, dest, c);
      } else {
        CFlag, VFlag := false, false;
      }
    }

    // ---- The shifter operand ---------------------------------------------

    /** A standard increment of r15; the next fetch will not repeat it. */
    method IncPc()
      requires InSequence() && NextInstr == 0
      modifies this`NextInstr, Reg
      ensures InSequence() && NextInstr == PCINCED && Reg[..15] == old(Reg[..15])
    {
      hide TableReady, Wrap;
      SecondStep(pc, Size(TFlag));
      Reg[15] := Wrap(Reg[15] + Size(TFlag));
      NextInstr := NextInstr | PCINCED;
    }

    /** The operand of an arithmetic instruction: the shifter does not touch the carry. */
    method GetDPRegRHS(w: Arm) returns (rhs: u32)
      requires Executing() && w.kind != 1 && ShifterOperand(Current(), w).Some?
      modifies this`NextInstr, Reg
      ensures InSequence() && Reg[..15] == old(Reg[..15]) && (w.bit4 == 0 ==> NextInstr == 0)
      ensures rhs == ShifterOperand(old(Current()), w).value.value
    {
      hide TableReady, ShiftBy;
      if w.bit4 == 1 {
        IncPc();
        rhs := RegisterValue(ShiftOf(w.shift), Reg[Index(w.rm)], Reg[Index(w.rs)] % 256);
      } else {
        var base: u32 := if w.rm == 15 then Reg[15] else Reg[Index(w.rm)];
        rhs := ConstantValue(ShiftOf(w.shift), base, w.amount as nat);
      }
    }

    method RegisterValue(k: Shift, base: u32, amount: nat) returns (rhs: u32)
      ensures rhs == ShiftBy(k, base, CFlag, amount).value
    {
      hide Wrap, Shr, Shl, Sar, BitOr;
      if amount == 0 { return base; }
      match k
      case LSL =>
        if amount >= 32 { LslLarge(base, CFlag, amount); rhs := 0; }
        else { LslValue(base, CFlag, amount); rhs := Shl(base, amount); }
      case LSR =>
        if amount >= 32 { LsrLarge(base, CFlag, amount); rhs := 0; }
        else { LsrClosed(base, CFlag, amount); rhs := Shr(base, amount); }
      case ASR =>
        if amount >= 32 { AsrLarge(base, CFlag, amount); Sar31(base); rhs := Sar(base, 31); }
        else { AsrClosed(base, CFlag, amount); rhs := Sar(base, amount); }
      case ROR =>
        var shamt := amount % 32;
        RorModulo(base, CFlag, amount);
        if shamt == 0 { rhs := base; }
        else { RotateExpression(base, CFlag, shamt); rhs := BitOr(Shl(base, 32 - shamt), Shr(base, shamt)); }
    }

    method ConstantValue(k: Shift, base: u32, shamt: nat) returns (rhs: u32)
      requires shamt < 32
      ensures rhs == ConstantShift(k, base, CFlag, shamt).value
    {
      hide Wrap, Shr, Shl, Sar, BitOr;
      match k
      case LSL =>
        LslValue(base, CFlag, shamt);
        rhs := Shl(base, shamt);
      case LSR =>
        if shamt == 0 { LsrLarge(base, CFlag, 32); rhs := 0; }
        else { LsrClosed(base, CFlag, shamt); rhs := Shr(base, shamt); }
      case ASR =>
        if shamt == 0 { AsrLarge(base, CFlag, 32); Sar31(base); rhs := Sar(base, 31); }
        else { AsrClosed(base, CFlag, shamt); rhs := Sar(base, shamt); }
      case ROR =>
        if shamt == 0 { ExtendExpression(base, CFlag); rhs := BitOr(Shr(base, 1), Shl(BitOf(CFlag), 31)); }
        else { RotateExpression(base, CFlag, shamt); rhs := BitOr(Shl(base, 32 - shamt), Shr(base, shamt)); }
    }

    /** The operand of a logical instruction that sets the flags: the last bit shifted out becomes the carry. */
    method GetDPSRegRHS(w: Arm) returns (rhs: u32)
      requires Executing() && w.kind != 1 && ShifterOperand(Current(), w).Some?
      requires !(w.bit4 == 0 && w.shift == 0 && w.amount == 0)
      modifies this`NextInstr, this`CFlag, Reg
      ensures InSequence() && Reg[..15] == old(Reg[..15]) && (w.bit4 == 0 ==> NextInstr == 0)
      ensures Shifted(rhs, CFlag) == ShifterOperand(old(Current()), w).value
    {
      hide TableReady, ShiftBy, Wrap, ConstantShift;
      if w.bit4 == 1 {
        IncPc();
        rhs := RegisterOut(ShiftOf(w.shift), Reg[Index(w.rm)], Reg[Index(w.rs)] % 256);
      } else {
        var base: u32 := if w.rm == 15 then Reg[15] else Reg[Index(w.rm)];
        rhs := ConstantOut(ShiftOf(w.shift), base, w.amount as nat);
      }
    }

    method ConstantOut(k: Shift, base: u32, shamt: nat) returns (rhs: u32)
      requires shamt < 32 && (k == LSL ==> shamt > 0)
      modifies this`CFlag
      ensures Shifted(rhs, CFlag) == ConstantShift(k, base, old(CFlag), shamt)
    {
      if shamt == 0 {
        rhs := ConstantZero(k, base);
      } else {
        match k
        case LSL => rhs := RegisterLsl(base, shamt);
        case LSR => rhs := RegisterLsr(base, shamt);
        case ASR => rhs := RegisterAsr(base, shamt);
        case ROR => rhs := RegisterRor(base, shamt);
      }
    }

    /** A constant amount of zero stands for a shift by 32, and for ROR for rotation through the carry. */
    method ConstantZero(k: Shift, base: u32) returns (rhs: u32)
      requires k != LSL
      modifies this`CFlag
      ensures Shifted(rhs, CFlag) == ConstantShift(k, base, old(CFlag), 0)
    {
      hide Shr, Shl, Sar, BitOr, Wrap, Neg;
      SignBit(base);
      match k
      case LSR =>
        LsrOut(base, CFlag, 32);
        CFlag, rhs := Shr(base, 31) == 1, 0;
      case ASR =>
        AsrLarge(base, CFlag, 32);
        Sar31(base);
        CFlag, rhs := Neg(base), Sar(base, 31);
      case ROR =>
        ExtendExpression(base, CFlag);
        rhs := BitOr(Shr(base, 1), Shl(BitOf(CFlag), 31));
        CFlag := base % 2 == 1;
    }

    /** A register shifted by a register amount. */
    method RegisterOut(k: Shift, base: u32, shamt: nat) returns (rhs: u32)
      modifies this`CFlag
      ensures Shifted(rhs, CFlag) == ShiftBy(k, base, old(CFlag), shamt)
    {
      hide ShiftBy;
      match k
      case LSL => rhs := RegisterLsl(base, shamt);
      case LSR => rhs := RegisterLsr(base, shamt);
      case ASR => rhs := RegisterAsr(base, shamt);
      case ROR => rhs := RegisterRor(base, shamt);
    }

    method RegisterLsl(base: u32, shamt: nat) returns (rhs: u32)
      modifies this`CFlag
      ensures Shifted(rhs, CFlag) == ShiftBy(LSL, base, old(CFlag), shamt)
    {
      hide Shr, Shl, Wrap;
      if shamt == 0 {
        rhs := base;
      } else if shamt == 32 {
        LslLarge(base, CFlag, 32);
        LslCarry(base, CFlag, 32);
        CFlag, rhs := base % 2 == 1, 0;
      } else if shamt > 32 {
        LslLarge(base, CFlag, shamt);
        CFlag, rhs := false, 0;
      } else {
        LslValue(base, CFlag, shamt);
        LslCarry(base, CFlag, shamt);
        BitIsShr(base, 32 - shamt);
        CFlag, rhs := Shr(base, 32 - shamt) % 2 == 1, Shl(base, shamt);
      }
    }

    method RegisterLsr(base: u32, shamt: nat) returns (rhs: u32)
      modifies this`CFlag
      ensures Shifted(rhs, CFlag) == ShiftBy(LSR, base, old(CFlag), shamt)
    {
      hide Shr, Wrap;
      if shamt == 0 {
        rhs := base;
      } else if shamt == 32 {
        LsrOut(base, CFlag, 32);
        CFlag, rhs := Shr(base, 31) == 1, 0;
      } else if shamt > 32 {
        LsrLarge(base, CFlag, shamt);
        CFlag, rhs := false, 0;
      } else {
        LsrOut(base, CFlag, shamt);
        CFlag, rhs := Shr(base, shamt - 1) % 2 == 1, Shr(base, shamt);
      }
    }

    method RegisterAsr(base: u32, shamt: nat) returns (rhs: u32)
      modifies this`CFlag
      ensures Shifted(rhs, CFlag) == ShiftBy(ASR, base, old(CFlag), shamt)
    {
      hide Shr, Sar, Wrap;
      if shamt == 0 {
        rhs := base;
      } else if shamt >= 32 {
        AsrLarge(base, CFlag, shamt);
        Sar31(base);
        SignBit(base);
        CFlag, rhs := Neg(base), Sar(base, 31);
      } else {
        AsrClosed(base, CFlag, shamt);
        CFlag, rhs := Sar(base, shamt - 1) % 2 == 1, Sar(base, shamt);
      }
    }

    method RegisterRor(base: u32, amount: nat) returns (rhs: u32)
      modifies this`CFlag
      ensures Shifted(rhs, CFlag) == ShiftBy(ROR, base, old(CFlag), amount)
    {
      hide Shr, Shl, BitOr, Wrap;
      if amount == 0 { return base; }
      var shamt := amount % 32;
      RorModulo(base, CFlag, amount);
      RorCarry(base, CFlag, amount);
      SignBit(base);
      if shamt == 0 {
        CFlag, rhs := Neg(base), base;
      } else {
        RotateExpression(base, CFlag, shamt);
        RorClosed(base, CFlag, shamt);
        RorCarry(base, CFlag, shamt);
        BitIsShr(base, shamt - 1);
        CFlag, rhs := Shr(base, shamt - 1) % 2 == 1, BitOr(Shl(base, 32 - shamt), Shr(base, shamt));
      }
    }

    /** An immediate operand comes from the table; the carry changes only if the byte was rotated. */
    method Immediate(imm8: nat, rot: nat, setsCarry: bool) returns (rhs: u32)
      requires Valid() && imm8 < 256 && rot < 16
      modifies this`CFlag
      ensures Valid()
      ensures var s := ShiftBy(ROR, imm8, old(CFlag), 2 * rot);
        rhs == s.value && CFlag == if setsCarry then s.carry else old(CFlag)
    {
      hide Neg;
      var imm := rot * 256 + imm8;
      TableEntry(imm8, rot, CFlag);
      rhs := ImmedTable[imm];
      SignBit(rhs);
      if setsCarry && imm > 255 {
        CFlag := Neg(rhs);
      }
    }

    /** The second operand in any of its forms (macros DPImmRHS, DPSImmRHS, DPRegRHS and DPSRegRHS). */
    method Operand(w: Arm, setsCarry: bool) returns (rhs: u32)
      requires Executing() && ShifterOperand(Current(), w).Some?
      modifies this`NextInstr, this`CFlag, Reg
      ensures InSequence() && Reg[..15] == old(Reg[..15])
      ensures w.rn == 15 ==> NextInstr == 0
      ensures rhs == ShifterOperand(old(Current()), w).value.value
      ensures CFlag == if setsCarry then ShifterOperand(old(Current()), w).value.carry else old(CFlag)
    {
      hide Wrap, ShiftOnce, TableReady, ShiftBy;
      if w.kind == 1 {
        rhs := Immediate(w.imm8 as nat, w.rs as nat, setsCarry);
      } else if w.bit4 == 0 && w.shift == 0 && w.amount == 0 {
        rhs := if w.rm == 15 then Reg[15] else Reg[Index(w.rm)];
        ShiftZero(LSL, rhs, CFlag);
      } else if setsCarry {
        rhs := GetDPSRegRHS(w);
      } else {
        rhs := GetDPRegRHS(w);
      }
    }

    function Lhs(rn: bv4): u32
      requires Reg.Length == 16
      reads Reg
    {
      if rn == 15 then AlignDown(Reg[15], 4) else Reg[Index(rn)]
    }

    lemma LhsIsFirstOperand(a: Core, rn: bv4)
      requires Reg.Length == 16 && a.r == Reg[..15] && (rn == 15 ==> Reg[15] == ReadPc(a))
      ensures Lhs(rn) == FirstOperand(a, rn)
    {
      hide ReadPc, AlignDown;
    }

    // ---- Writing results -------------------------------------------------

    method WriteR15(src: u32)
      requires Valid()
      modifies this`NextInstr, Reg
      ensures Valid() && NextInstr >= PRIMEPIPE && Reg[..15] == old(Reg[..15])
      ensures Reg[15] == AlignDown(src, Size(TFlag))
    {
      hide AlignDown, ShiftBy, TableReady;
      Reg[15] := if TFlag then AlignDown(src, 2) else AlignDown(src, 4);
      NextInstr := NextInstr | PRIMEPIPE;
    }

    method WriteDest(rd: bv4, dest: u32)
      requires InSequence() && Current().pc % Size(TFlag) == 0
      modifies this`NextInstr, Reg
      ensures Ready()
      ensures var b := Next(old(Current()));
        Between() == if rd == 15 then b.(pc := AlignDown(dest, Size(TFlag))) else Set(b, rd, dest)
    {
      hide ShiftBy, AlignDown, TableReady;
      Aligned(dest, TFlag);
      Aligned(pc, TFlag);
      if rd == 15 {
        WriteR15(dest);
      } else {
        Reg[Index(rd)] := dest;
      }
    }

    // ---- Instructions ----------------------------------------------------

    /** The data-processing instructions (cases 0x00 to 0x3f of the interpreter's switch). */
    method ExecuteDataProcessing(w: Arm)
      requires Executing() && w.kind <= 1 && DataProcessing(Current(), w).Some?
      modifies this, Reg
      ensures Ready() && Between() == DataProcessing(old(Current()), w).value
    {
      hide ShifterOperand, Compute, AlignDown, Wrap, TableReady, FirstOperand, Set, OpcodeOf, Ready, Between, ShiftBy,
        DataProcessing, IsTest, Size;
      ghost var a := Current();
      Separately(a, w);
      var dest := Calculate(w);
      assert Current() == a.(f := Psr());
      if !IsTest(OpcodeOf(w.op)) {
        WriteDest(w.rd, dest);
      } else {
        NextInSequence();
      }
    }

    /** Data processing as flags first, then the result. */
    static lemma Separately(a: Core, w: Arm)
      requires WellFormed(a) && DataProcessing(a, w).Some?
      ensures ShifterOperand(a, w).Some? && a.pc % Size(a.thumb) == 0
      ensures var o := Compute(OpcodeOf(w.op), FirstOperand(a, w.rn), ShifterOperand(a, w).value, a.f);
        var b := Next(a.(f := if w.s == 1 then o.f else a.f));
        DataProcessing(a, w).value ==
          if IsTest(OpcodeOf(w.op)) then b
          else if w.rd == 15 then b.(pc := AlignDown(o.value, Size(a.thumb)))
          else Set(b, w.rd, o.value)
    {
      hide ShifterOperand, Compute, AlignDown, Wrap, FirstOperand, OpcodeOf, IsTest;
    }

    /** The operands and the operation. */
    method Calculate(w: Arm) returns (dest: u32)
      requires Executing() && w.kind <= 1 && ShifterOperand(Current(), w).Some?
      modifies this`NextInstr, this`NFlag, this`ZFlag, this`CFlag, this`VFlag, Reg
      ensures InSequence() && Reg[..15] == old(Reg[..15])
      ensures var a := old(Current());
        var o := Compute(OpcodeOf(w.op), FirstOperand(a, w.rn), ShifterOperand(a, w).value, a.f);
        dest == o.value && Psr() == if w.s == 1 then o.f else a.f
    {
      hide ShifterOperand, Compute, Wrap, TableReady, Lhs, FirstOperand, OpcodeOf, IsLogical, ShiftBy;
      var op, s := OpcodeOf(w.op), w.s == 1;
      ghost var a, y := Current(), ShifterOperand(Current(), w).value;
      var rhs := Operand(w, s && IsLogical(op));
      LhsIsFirstOperand(a, w.rn);
      dest := Alu(op, s, Lhs(w.rn), rhs, y, a.f);
    }

    lemma NextInSequence()
      requires InSequence() && pc % Size(TFlag) == 0
      ensures Ready() && Between() == Next(Current())
    {
      hide ShiftBy, Wrap;
      Aligned(pc, TFlag);
    }

    /** Result and flags of one operation; f are the flags before the shifter was used. */
    method Alu(op: Opcode, s: bool, lhs: u32, rhs: u32, ghost y: Shifted, ghost f: Flags) returns (dest: u32)
      requires rhs == y.value && Psr() == f.(c := if s && IsLogical(op) then y.carry else f.c)
      modifies this`NFlag, this`ZFlag, this`CFlag, this`VFlag
      ensures var o := Compute(op, lhs, y, f);
        dest == o.value && Psr() == if s then o.f else f
    {
      hide Compute, LogicalResult;
      if IsLogical(op) {
        LogicalMeans(op, lhs, y, f);
        dest := LogicalResult(op, lhs, rhs);
        if s { NegZero(dest); }
      } else {
        dest := ArithmeticResult(op, s, lhs, rhs, y);
      }
    }

    lemma LogicalMeans(op: Opcode, lhs: u32, y: Shifted, f: Flags)
      requires IsLogical(op)
      ensures Compute(op, lhs, y, f) == Logical(LogicalResult(op, lhs, y.value), y.carry, f)
    {
      hide BitAnd, BitOr, BitXor, BitNot, Logical;
    }

    method ArithmeticResult(op: Opcode, s: bool, lhs: u32, rhs: u32, ghost y: Shifted) returns (dest: u32)
      requires !IsLogical(op) && rhs == y.value
      modifies this`NFlag, this`ZFlag, this`CFlag, this`VFlag
      ensures var o := Compute(op, lhs, y, old(Psr())); dest == o.value && Psr() == if s then o.f else old(Psr())
    {
      hide AddWith, SubWith;
      var c := CFlag;
      match op
      case ADD => dest := AddCase(lhs, rhs, false, s);
      case CMN => dest := AddCase(lhs, rhs, false, s);
      case ADC => dest := AddCase(lhs, rhs, c, s);
      case SUB => dest := SubCase(lhs, rhs, true, s);
      case CMP => dest := SubCase(lhs, rhs, true, s);
      case SBC => dest := SubCase(lhs, rhs, c, s);
      case RSB => dest := SubCase(rhs, lhs, true, s);
      case RSC => dest := SubCase(rhs, lhs, c, s);
    }

    predicate IsLogical(op: Opcode) {
      op == AND || op == EOR || op == TST || op == TEQ || op == ORR || op == MOV || op == BIC || op == MVN
    }

    function LogicalResult(op: Opcode, lhs: u32, rhs: u32): u32
      requires IsLogical(op)
    {
      match op
      case AND => BitAnd(lhs, rhs)
      case TST => BitAnd(lhs, rhs)
      case EOR => BitXor(lhs, rhs)
      case TEQ => BitXor(lhs, rhs)
      case ORR => BitOr(lhs, rhs)
      case MOV => rhs
      case BIC => BitAnd(lhs, BitNot(rhs))
      case MVN => BitNot(rhs)
    }

    method AddCase(lhs: u32, rhs: u32, c: bool, s: bool) returns (dest: u32)
      modifies this`NFlag, this`ZFlag, this`CFlag, this`VFlag
      ensures dest == AddWith(lhs, rhs, c).value
      ensures Psr() == if s then Arithmetic(AddWith(lhs, rhs, c)).f else old(Psr())
    {
      dest := Wrap(lhs + rhs + BitOf(c));
      if s {
        AddFlags(lhs, rhs, dest, c);
        NegZero(dest);
      }
    }

    method SubCase(lhs: u32, rhs: u32, c: bool, s: bool) returns (dest: u32)
      modifies this`NFlag, this`ZFlag, this`CFlag, this`VFlag
      ensures dest == SubWith(lhs, rhs, c).value
      ensures Psr() == if s then Arithmetic(SubWith(lhs, rhs, c)).f else old(Psr())
    {
      dest := Wrap(lhs - rhs - BitOf(!c));
      if s {
        SubFlags(lhs, rhs, dest, c);
        NegZero(dest);
      }
    }

    method ExecuteMultiply(w: Arm)
      requires Executing() && Multiply(Current(), w).Some?
      modifies this, Reg
      ensures Ready() && Between() == Multiply(old(Current()), w).value
    {
      hide TableReady, Wrap, Index, Ready, Between, Size;
      ghost var a := Current();
      var product := Reg[Index(w.rm)] as int * Reg[Index(w.rs)];
      var dest := Wrap(if w.op == 1 then product + Reg[Index(w.rd)] else product);
      if w.s == 1 { NegZero(dest); }
      Reg[Index(w.rn)] := dest;
      Sequenced(a);
    }

    /** The register with a number, r15 included. */
    static function Place(i: bv4): (n: nat)
      ensures n < 16
    {
      i as nat
    }

    static lemma PlacesApart(w: Arm)
      requires LongOperands(w)
      ensures Place(w.rd) == Index(w.rd) && Place(w.rn) == Index(w.rn) && Index(w.rd) != Index(w.rn)
    {
      IndexInjective(w.rd, w.rn);
    }

    /** Operands that the long multiplications accept. */
    static predicate LongOperands(w: Arm) {
      w.rn != 15 && w.rd != 15 && w.rs != 15 && w.rm != 15 && w.rn != w.rd
    }

    /** UMULL and SMULL. With operands that are not accepted, no register changes, but the flags are set for zero. */
    method Multiply64(w: Arm, msigned: bool, scc: bool)
      requires Reg.Length == 16
      modifies this`NFlag, this`ZFlag, Reg
      ensures !LongOperands(w) ==>
        Reg[..] == old(Reg[..]) && Psr() == old(if scc then Psr().(n := false, z := true) else Psr())
      ensures LongOperands(w) ==>
        var x := Exact(old(Reg[Index(w.rm)]), old(Reg[Index(w.rs)]), msigned) % TWO64;
        && Reg[..] == old(Reg[..])[Index(w.rd) := x % TWO32][Index(w.rn) := x / TWO32]
        && Psr() == old(if scc then Psr().(n := x >= TWO64 / 2, z := x == 0) else Psr())
    {
      hide Exact, Index, Summary, Joined;
      var rdHi: u32, rdLo: u32 := 0, 0;
      if LongOperands(w) {
        rdLo, rdHi := FullProduct(Reg[Index(w.rm)], Reg[Index(w.rs)], msigned);
        WordsOf(rdLo, rdHi);
        Reg[Index(w.rd)] := rdLo;
        Reg[Index(w.rn)] := rdHi;
      } else {
        WordsOf(0, 0);
      }
      SummaryMeans(rdLo, rdHi);
      if scc { NegZero(Summary(rdLo, rdHi)); }
    }

    /** UMLAL and SMLAL: the registers are read before the product replaces them. With operands that are not accepted,
        nothing is multiplied, and the accumulator is added to itself. */
    method MultiplyAdd64(w: Arm, msigned: bool, scc: bool)
      requires Reg.Length == 16
      modifies this`NFlag, this`ZFlag, Reg
      ensures
        var acc := Joined(old(Reg[Place(w.rd)]), old(Reg[Place(w.rn)]));
        var product := if LongOperands(w) then Exact(old(Reg[Index(w.rm)]), old(Reg[Index(w.rs)]), msigned) else acc;
        var x := (acc + product) % TWO64;
        && Reg[..] == old(Reg[..])[Place(w.rd) := x % TWO32][Place(w.rn) := x / TWO32]
        && Psr() == old(if scc then Psr().(n := x >= TWO64 / 2, z := x == 0) else Psr())
    {
      hide Exact, Joined, Place, Index;
      ghost var r := Reg[..];
      var rdLo, rdHi := Accumulate(w, msigned);
      Overwrite(r, Reg[..], Place(w.rd), Place(w.rn), rdLo, rdHi);
      WriteLong(Place(w.rd), Place(w.rn), rdLo, rdHi, scc);
    }

    /** The sum of the accumulator and the product that has replaced it. */
    method Accumulate(w: Arm, msigned: bool) returns (rdLo: u32, rdHi: u32)
      requires Reg.Length == 16
      modifies this`NFlag, this`ZFlag, Reg
      ensures
        var acc := Joined(old(Reg[Place(w.rd)]), old(Reg[Place(w.rn)]));
        Joined(rdLo, rdHi) ==
          (acc + if LongOperands(w) then Exact(old(Reg[Index(w.rm)]), old(Reg[Index(w.rs)]), msigned) else acc) % TWO64
      ensures Psr() == old(Psr())
      ensures forall i :: 0 <= i < 16 && i != Place(w.rd) && i != Place(w.rn) ==> Reg[i] == old(Reg[i])
    {
      hide Exact, Joined, Place, Index;
      ghost var r := Reg[..];
      rdHi, rdLo := Reg[Place(w.rn)], Reg[Place(w.rd)];
      ghost var acc := Joined(rdLo, rdHi);
      Multiply64(w, msigned, false);
      if LongOperands(w) {
        ghost var product := Exact(r[Index(w.rm)], r[Index(w.rs)], msigned);
        PlacesApart(w);
        PartsOf(r, Index(w.rd), Index(w.rn), product % TWO64, Reg[..]);
        JoinedParts(product % TWO64);
        AddModulo(acc, product);
      }
      rdLo, rdHi := Add64(rdLo, rdHi, Reg[Place(w.rd)], Reg[Place(w.rn)]);
    }

    /** Writes both words of a result, and N and Z of the whole. */
    method WriteLong(lo: nat, hi: nat, rdLo: u32, rdHi: u32, scc: bool)
      requires Reg.Length == 16 && lo < 16 && hi < 16
      modifies this`NFlag, this`ZFlag, Reg
      ensures var x := Joined(rdLo, rdHi);
        && Reg[..] == old(Reg[..])[lo := x % TWO32][hi := x / TWO32]
        && Psr() == old(if scc then Psr().(n := x >= TWO64 / 2, z := x == 0) else Psr())
    {
      hide Summary, Joined;
      WordsOf(rdLo, rdHi);
      Reg[lo] := rdLo;
      Reg[hi] := rdHi;
      SummaryMeans(rdLo, rdHi);
      if scc { NegZero(Summary(rdLo, rdHi)); }
    }

    method ExecuteMultiplyLong(w: Arm)
      requires Executing() && MultiplyLong(Current(), w).Some?
      modifies this, Reg
      ensures Ready() && Between() == MultiplyLong(old(Current()), w).value
    {
      hide TableReady, Wrap, Index, Place, Exact, Joined, Size, Ready, Between;
      ghost var a := Current();
      PlacesApart(w);
      if w.op & 1 != 0 {
        MultiplyAdd64(w, w.op & 2 != 0, w.s == 1);
      } else {
        Multiply64(w, w.op & 2 != 0, w.s == 1);
      }
      Sequenced(a);
    }

    /** The status register put together from its parts (macro CPSR). */
    function GetCpsr(): (psr: u32)
      reads this
      ensures psr == StatusWord(Psr(), TFlag, Bits())
    {
      hide GeBits;
      BitOf(NFlag) * 0x8000_0000 + BitOf(ZFlag) * 0x4000_0000 + BitOf(CFlag) * 0x2000_0000 + BitOf(VFlag) * 0x1000_0000
      + BitOf(QFlag) * 0x0800_0000 + GeBits(GEFlag) + BitOf(EFlag) * 0x200 + BitOf(AFlag) * 0x100 + IFFlags * 0x40
      + BitOf(TFlag) * 0x20 + MODE
    }

    /** BX, BLX, and loads of the PC: bit 0 of the target selects the instruction set, the target is rounded down to an
        address of that set, and the copy of the status register is brought up to date. */
    method WriteR15Branch(src: u32)
      requires Valid()
      modifies this`TFlag, this`Cpsr, this`NextInstr, Reg
      ensures Ready() && NextInstr >= PRIMEPIPE
      ensures Between() == Branched(old(Reg[..15]), src, old(Psr()), old(Bits()))
    {
      hide TableReady, AlignDown, StatusWord, GetCpsr;
      if src % 2 == 1 {
        TFlag := true;
        Reg[15] := AlignDown(src, 2);
      } else {
        TFlag := false;
        Reg[15] := AlignDown(src, 4);
      }
      Aligned(src, TFlag);
      Cpsr := GetCpsr();
      NextInstr := NextInstr | PRIMEPIPE;
    }

    method ExecuteBranchRegister(w: Arm)
      requires Executing() && BranchRegister(Current(), w).Some?
      modifies this, Reg
      ensures Ready() && Between() == BranchRegister(old(Current()), w).value
    {
      hide TableReady, Wrap, SetBit0, ReturnAddress, Exchange, AlignDown, Ready, Between, Size;
      ghost var a := Current();
      var target: u32 := if w.rm == 15 then Reg[15] else Reg[Index(w.rm)];
      if w.bit7 == 0 && w.shift == 1 {
        ExchangeMeans(Set(a, 14, ReturnAddress(a)), target);
        CallReturn(a);
        var temp := if TFlag then SetBit0(Wrap(pc + 2)) else Wrap(pc + 4);
        WriteR15Branch(target);
        WriteRegister(14, temp);
      } else {
        ExchangeMeans(a, target);
        WriteR15Branch(target);
      }
    }

    /** B and BL; the backward offset is sign-extended by setting its upper bits (macro NEGBRANCH). */
    method ExecuteBranch(w: Arm)
      requires Executing() && !TFlag
      modifies this, Reg
      ensures Ready() && Between() == Branch(old(Current()), w)
    {
      hide ShiftBy, TableReady, Wrap, Branch;
      BranchMeans(Current(), w);
      var low := w.low23 as nat;
      var link := Wrap(pc + 4);
      var target := Wrap(pc + 8 + if w.op & 4 == 0 then 4 * low else Wrap(4 * (0xFF80_0000 + low)));
      if w.op & 8 != 0 {
        Reg[14] := link;
      }
      Reg[15] := target;
      NextInstr := NextInstr | PRIMEPIPE;
    }

    /** The condition field (the switch on TOPBITS, and the one of the conditional Thumb branch). */
    function Condition(cond: bv4): bool
      reads this
    {
      match cond
      case 0 => ZFlag
      case 1 => !ZFlag
      case 2 => CFlag
      case 3 => !CFlag
      case 4 => NFlag
      case 5 => !NFlag
      case 6 => VFlag
      case 7 => !VFlag
      case 8 => CFlag && !ZFlag
      case 9 => !CFlag || ZFlag
      case 10 => (!NFlag && !VFlag) || (NFlag && VFlag)
      case 11 => (NFlag && !VFlag) || (!NFlag && VFlag)
      case 12 => (!NFlag && !VFlag && !ZFlag) || (NFlag && VFlag && !ZFlag)
      case 13 => ((NFlag && !VFlag) || (!NFlag && VFlag)) || ZFlag
      case _ => true
    }

    lemma ConditionMeans(cond: bv4)
      ensures Condition(cond) == Passes(cond, Psr())
    {
    }

    /** One ARM instruction, or the translation of a Thumb instruction. */
    method ExecuteArm(w: Arm)
      requires Executing() && ArmStep(Current(), w).Some?
      modifies this, Reg
      ensures Ready() && Between() == ArmStep(old(Current()), w).value
    {
      hide TableReady, Multiply, MultiplyLong, BranchRegister, DataProcessing, Branch, Passes, Condition, Wrap;
      ConditionMeans(w.cond);
      if !Condition(w.cond) {
        NextInSequence();
      } else if w.kind == 0 && w.bit4 == 1 && w.bit7 == 1 {
        if w.op <= 3 { ExecuteMultiply(w); } else { ExecuteMultiplyLong(w); }
      } else if w.kind == 0 && w.op & 12 == 8 && w.s == 0 {
        ExecuteBranchRegister(w);
      } else if w.kind <= 1 {
        ExecuteDataProcessing(w);
      } else {
        ExecuteBranch(w);
      }
    }

    // ---- Thumb branches --------------------------------------------------

    method BranchTo(target: u32)
      requires Valid()
      modifies this`NextInstr, Reg
      ensures Valid() && NextInstr >= PRIMEPIPE && Reg[15] == target && Reg[..15] == old(Reg[..15])
    {
      hide TableReady;
      Reg[15] := target;
      NextInstr := NextInstr | PRIMEPIPE;
    }

    /** A branch by a signed number of halfwords. Here and below, fields that the code joins with `|` do not
        overlap and are added. */
    method BranchRelative(low: nat, back: bool, sign: nat)
      requires Executing() && TFlag && sign % 2 == 0
      modifies this`NextInstr, Reg
      ensures Ready() && Between() == Relative(old(Current()), low, back, sign)
    {
      hide TableReady, Wrap;
      ThumbTarget(pc, low, sign);
      BranchTo(Wrap(pc + 4 + (2 * low + if back then TWO32 - sign else 0)));
    }

    /** The first half of BL and BLX. */
    method BranchLinkHigh(low: nat, back: bool)
      requires Executing() && TFlag
      modifies this`NextInstr, Reg
      ensures Ready() && Between() == LinkHigh(old(Current()), low, back)
    {
      hide TableReady, Wrap;
      LinkHalf(pc, low);
      HalfwordAligned(pc + 2);
      Reg[14] := Wrap(Reg[15] + (0x1000 * low + if back then 0x40_0000 + 0xFF80_0000 else 0));
      BranchTo(Wrap(pc + 2));
    }

    /** The second half of BL. */
    method BranchLinkLow(low: nat)
      requires Executing() && TFlag && LinkLow(Current(), low).Some?
      modifies this`NextInstr, Reg
      ensures Ready() && Between() == LinkLow(old(Current()), low).value
    {
      hide TableReady, Wrap, AlignDown, SetBit0, ReturnAddress;
      CallReturn(Current());
      HalfwordAligned(Reg[14] + 2 * low);
      var temp := SetBit0(Wrap(pc + 2));
      BranchTo(Wrap(Reg[14] + 2 * low));
      Reg[14] := temp;
    }

    /** The second half of BLX. */
    method BranchLinkExchange(low: nat)
      requires Executing() && TFlag && LinkExchange(Current(), low).Some?
      modifies this`NextInstr, this`TFlag, Reg
      ensures Ready() && Between() == LinkExchange(old(Current()), low).value
    {
      hide TableReady, Wrap, AlignDown, SetBit0, ReturnAddress;
      CallReturn(Current());
      WordAligned(Wrap(Reg[14] + 2 * low));
      var temp := SetBit0(Wrap(pc + 2));
      BranchTo(AlignDown(Wrap(Reg[14] + 2 * low), 4));
      Reg[14] := temp;
      TFlag := false;
    }

    /** B, conditional B and the halves of BL and BLX (cases 26 to 31 of the Thumb decoder). */
    method ExecuteThumbBranch(t: Thumb)
      requires Executing() && TFlag && t.op >= 26 && ThumbBranch(Current(), t).Some?
      modifies this, Reg
      ensures Ready() && Between() == ThumbBranch(old(Current()), t).value
    {
      hide TableReady, Passes, Condition, Relative, LinkHigh, LinkLow, LinkExchange, Wrap;
      match t.op
      case 28 => BranchRelative(t.imm10 as nat, t.bit10 == 1, 0x800);
      case 29 => BranchLinkExchange(t.imm11 as nat);
      case 30 => BranchLinkHigh(t.imm10 as nat, t.bit10 == 1);
      case 31 => BranchLinkLow(t.imm11 as nat);
      case _ =>
        ConditionMeans(t.op4);
        if Condition(t.op4) {
          BranchRelative(t.imm7 as nat, t.bit7 == 1, 0x100);
        } else {
          NextInSequence();
        }
    }

    // ---- Running ---------------------------------------------------------

    /** Advances the pipeline to the next instruction (the switch on NextInstr). */
    method Advance()
      requires Ready()
      modifies this`NextInstr, this`pc, Reg
      ensures Executing() && Current() == old(Between())
    {
      hide TableReady, Wrap;
      var isize := Size(TFlag);
      AdvanceMeans(pc, isize);
      if NextInstr <= 1 {
        Reg[15] := Wrap(Reg[15] + isize);
        pc := Wrap(pc + isize);
      } else if NextInstr <= 3 {
        pc := Wrap(pc + isize);
      } else {
        pc := Reg[15];
        Reg[15] := Wrap(pc + isize * 2);
      }
      NextInstr := 0;
    }

    /** Translates an instruction if need be, and executes it. */
    method Execute(instr: bv32)
      requires Executing() && EmulatedInstruction(Current(), instr).Some?
      modifies this, Reg
      ensures Ready() && Between() == EmulatedInstruction(old(Current()), instr).value
    {
      hide TableReady, Wrap, ArmStep, ThumbBranch, Decode, FieldsOf, ThumbFieldsOf;
      if TFlag {
        if Rewritten(ThumbFieldsOf(instr)) {
          ExecuteArm(FieldsOf(Decode(instr)));
        } else {
          ExecuteThumbBranch(ThumbFieldsOf(instr));
        }
      } else {
        ExecuteArm(FieldsOf(instr));
      }
    }

    /** One turn of the interpreter's loop: fetch and execute. */
    method Step(code: Code)
      requires Ready() && Emulated(code, Between()).Some?
      modifies this, Reg
      ensures Ready() && Between() == Emulated(code, old(Between())).value
    {
      hide TableReady, Wrap, EmulatedInstruction;
      Advance();
      Execute(if TFlag then code.half(pc) as bv32 else code.word(pc));
    }

    /** The loop runs n instructions. It may be left and entered again between any two of them: what it
        needs from one call to the next is what it re-establishes, Ready. */
    method Run(code: Code, n: nat)
      requires Ready() && EmulatedRun(code, Between(), n).Some?
      modifies this, Reg
      ensures Ready() && Between() == EmulatedRun(code, old(Between()), n).value
    {
      hide Between, Emulated, WellFormed;
      ghost var a := Between();
      var i := 0;
      while i != n
        invariant 0 <= i <= n && Ready()
        invariant EmulatedRun(code, a, i) == Some(Between())
        decreases n - i
      {
        SomePrefix(code, a, i + 1, n);
        Step(code);
        i := i + 1;
      }
    }
  }

  lemma BranchMeans(a: Core, w: Arm)
    requires |a.r| == 15 && a.pc % 4 == 0 && !a.thumb
    ensures var low := w.low23 as nat;
      var target := Wrap(a.pc + 8 + if w.op & 4 == 0 then 4 * low else Wrap(4 * (0xFF80_0000 + low)));
      && target % 4 == 0
      && Branch(a, w) == (if w.op & 8 != 0 then a.(r := a.r[14 := Wrap(a.pc + 4)]) else a).(pc := target)
  {
    hide Wrap;
    OffsetMeans(a.pc, w.low23 as nat, w.op & 4 != 0);
  }

  lemma OffsetMeans(pc: u32, low: nat, back: bool)
    requires pc % 4 == 0
    ensures var target := Wrap(pc + 8 + if !back then 4 * low else Wrap(4 * (0xFF80_0000 + low)));
      target % 4 == 0 && target == Wrap(pc + 8 + (4 * low - if back then 0x200_0000 else 0))
  {
    hide Wrap;
    OffsetAligned(pc, low, back);
    BackwardOffset(pc, low);
  }

  /** The wrapped offset of a backward branch acts as a negative one. */
  lemma BackwardOffset(pc: u32, low: nat)
    ensures Wrap(pc + 8 + Wrap(4 * (0xFF80_0000 + low))) == Wrap(pc + 8 + (4 * low - 0x200_0000))
  {
    hide Wrap;
    WrapAdd(pc + 8, 4 * (0xFF80_0000 + low));
    WrapModulo(pc + 8 + (4 * low - 0x200_0000), 4);
  }

  lemma ThumbTarget(pc: u32, low: int, sign: int)
    requires pc % 2 == 0 && 0 <= low && sign % 2 == 0
    ensures Wrap(pc + 4 + (2 * low + (TWO32 - sign))) == Wrap(Wrap(pc + 4) + 2 * low - sign)
    ensures Wrap(pc + 4 + 2 * low) == Wrap(Wrap(pc + 4) + 2 * low)
    ensures Wrap(Wrap(pc + 4) + 2 * low - sign) % 2 == 0 && Wrap(Wrap(pc + 4) + 2 * low) % 2 == 0
  {
    hide Wrap;
    WrapAdd(2 * low - sign, pc + 4);
    WrapAdd(2 * low, pc + 4);
    WrapModulo(pc + 4 + 2 * low - sign, 1);
    HalfwordAligned(pc + 4 + 2 * low - sign);
    HalfwordAligned(pc + 4 + 2 * low);
  }

  lemma LinkHalf(pc: u32, low: int)
    ensures Wrap(Wrap(pc + 4) + (0x1000 * low + (0x40_0000 + 0xFF80_0000)))
      == Wrap(Wrap(pc + 4) + 0x1000 * low - 0x40_0000)
  {
    WrapModulo(Wrap(pc + 4) + 0x1000 * low - 0x40_0000, 1);
  }

  lemma WordAligned(x: u32)
    ensures AlignDown(x, 4) % 4 == 0
  {
  }

  lemma SecondStep(pc: u32, isize: nat)
    ensures Wrap(Wrap(pc + 2 * isize) + isize) == Wrap(pc + 3 * isize)
  {
    hide Wrap;
    AdvanceMeans(pc, isize);
  }

  /** Moving the pipeline on by one instruction, in each of its forms. */
  lemma AdvanceMeans(pc: u32, isize: nat)
    ensures Wrap(Wrap(pc + 2 * isize) + isize) == Wrap(Wrap(pc + isize) + 2 * isize)
    ensures Wrap(pc + 3 * isize) == Wrap(Wrap(pc + isize) + 2 * isize)
  {
    hide Wrap;
    WrapAdd(isize, pc + 2 * isize);
    WrapAdd(2 * isize, pc + isize);
  }
}
