/** The translation of Thumb data-processing instructions into ARM instructions (src/arm11/thumbemu.c),
    and the proof that executing the ARM instruction has the effect of the Thumb one. */
module ThumbDecoder {
  import opened Words
  import opened Shifter
  import opened Architecture

  datatype Operands = Norm | ShiftReg | Negate | Mul

  datatype Format4 = Format4(opcode: bv32, otype: Operands)

  /** The table of format 4, indexed by instruction bits 6 to 9: a flag-setting ARM word whose register fields are
      still empty, and how to fill them. */
  function Entry(n: bv4): Format4 {
    match n
    case 0 => Format4(0xE0100000, Norm)
    case 1 => Format4(0xE0300000, Norm)
    case 2 => Format4(0xE1B00010, ShiftReg)
    case 3 => Format4(0xE1B00030, ShiftReg)
    case 4 => Format4(0xE1B00050, ShiftReg)
    case 5 => Format4(0xE0B00000, Norm)
    case 6 => Format4(0xE0D00000, Norm)
    case 7 => Format4(0xE1B00070, ShiftReg)
    case 8 => Format4(0xE1100000, Norm)
    case 9 => Format4(0xE2700000, Negate)
    case 10 => Format4(0xE1500000, Norm)
    case 11 => Format4(0xE1700000, Norm)
    case 12 => Format4(0xE1900000, Norm)
    case 13 => Format4(0xE0100090, Mul)
    case 14 => Format4(0xE1D00000, Norm)
    case _ => Format4(0xE1F00000, Norm)
  }

  /** Is t one of the instructions that are rewritten to an ARM data-processing instruction? */
  predicate Rewritten(t: Thumb) { t.op <= 8 || t.op == 20 || t.op == 21 || (t.op == 22 && t.op4 == 0) }

  function Format1(t: bv32): bv32 {
    0xE1B00000 | ((t & 0x1800) >> 6) | ((t & 0x07C0) << 1) | ((t & 0x0038) >> 3) | ((t & 0x0007) << 12)
  }

  function Format2(t: bv32): bv32 {
    var base := match (t & 0x0600) >> 9
      case 0 => 0xE0900000
      case 1 => 0xE0500000
      case 2 => 0xE2900000
      case _ => 0xE2500000;
    base | ((t & 0x01C0) >> 6) | ((t & 0x0038) << 13) | ((t & 0x0007) << 12)
  }

  function Format3(t: bv32): bv32 {
    var base := match (t & 0x1800) >> 11
      case 0 => 0xE3B00000
      case 1 => 0xE3500000
      case 2 => 0xE2900000
      case _ => 0xE2500000;
    base | (t & 0x00FF) | ((t & 0x0700) << 8) | ((t & 0x0700) << 4)
  }

  function NormWord(opcode: bv32, t: bv32): bv32 {
    opcode | ((t & 0x0007) << 16) | ((t & 0x0007) << 12) | ((t & 0x0038) >> 3)
  }

  function ShiftRegWord(opcode: bv32, t: bv32): bv32 {
    opcode | ((t & 0x0007) << 12) | (t & 0x0007) | ((t & 0x0038) << 5)
  }

  function NegWord(opcode: bv32, t: bv32): bv32 {
    opcode | ((t & 0x0007) << 12) | ((t & 0x0038) << 13)
  }

  function MulWord(opcode: bv32, t: bv32): bv32 {
    opcode | ((t & 0x0007) << 16) | ((t & 0x0007) << 8) | ((t & 0x0038) >> 3)
  }

  function Format4Word(t: bv32): bv32 {
    var entry := Entry(((t & 0x03C0) >> 6) as bv4);
    match entry.otype
    case Norm => NormWord(entry.opcode, t)
    case ShiftReg => ShiftRegWord(entry.opcode, t)
    case Negate => NegWord(entry.opcode, t)
    case Mul => MulWord(entry.opcode, t)
  }

  /** Operations that reach the high registers. */
  function HighWord(base: bv32, t: bv32): bv32 {
    var rd: bv32 := (t & 7) + (if t & 0x80 != 0 then 8 else 0);
    var rs: bv32 := ((t & 0x38) >> 3) + (if t & 0x40 != 0 then 8 else 0);
    base | (rd << 16) | (rd << 12) | rs
  }

  function Format5(t: bv32): bv32 {
    match (t & 0x0300) >> 8
    case 0 => HighWord(0xE0800000, t)
    case 1 => HighWord(0xE1500000, t)
    case 2 => HighWord(0xE1A00000, t)
    case _ =>
      if t & 0x80 == 0 then 0xE12FFF10 | ((t & 0x0078) >> 3)
      else 0xE1200030 | (((t & 0x0038) >> 3) + (if t & 0x40 != 0 then 8 else 0))
  }

  function Format12(t: bv32): bv32 {
    (if t & 0x800 == 0 then 0xE28F0F00 else 0xE28D0F00) | ((t & 0x0700) << 4) | (t & 0x00FF)
  }

  function Format13(t: bv32): bv32 {
    (if t & 0x80 != 0 then 0xE24DDF00 else 0xE28DDF00) | (t & 0x007F)
  }

  /** The ARM instruction that stands for t. */
  function Decode(t: bv32): bv32
    requires Rewritten(ThumbFieldsOf(t))
  {
    match (t & 0xF800) >> 11
    case 3 => Format2(t)
    case 8 => if t & 0x400 == 0 then Format4Word(t) else Format5(t)
    case 20 => Format12(t)
    case 21 => Format12(t)
    case 22 => Format13(t)
    case n => if n <= 2 then Format1(t) else Format3(t)
  }

  // ---- The fields of the translated words --------------------------------

  /** An unconditional data-processing instruction with these fields; `kind` 1 takes an immediate operand. */
  predicate Plain(w: Arm, kind: bv3, op: bv4, s: bv1, rd: bv4, rn: bv4) {
    && w.cond == 14 && w.kind == kind && w.op == op && w.s == s && w.rd == rd && w.rn == rn
    && (kind == 1 || w.bit4 == 0 || w.bit7 == 0)
  }

  /** The operand is register rm, unshifted. */
  predicate Register(w: Arm, rm: bv4) { w.bit4 == 0 && w.shift == 0 && w.amount == 0 && w.rm == rm }

  /** The operand is the byte imm8, rotated right by rot pairs of bits. */
  predicate Immediate(w: Arm, imm8: bv8, rot: bv4) { w.imm8 == imm8 && w.rs == rot }

  function OpcodeOf3(op: bv5): bv4 { match op case 4 => 13 case 5 => 10 case 6 => 4 case _ => 2 }

  function ShiftKind(op: bv4): bv2 { match op case 2 => 0 case 3 => 1 case 4 => 2 case _ => 3 }

  predicate IsRegisterShift(n: bv4) { n == 2 || n == 3 || n == 4 || n == 7 }

  predicate Format4Means(w: Arm, t: Thumb) {
    if t.alu == 9 then Plain(w, 1, 3, 1, t.r0, t.r3) && Immediate(w, 0, 0)
    else if t.alu == 13 then
      && w.cond == 14 && w.kind == 0 && w.op == 0 && w.s == 1 && w.bit4 == 1 && w.shift == 0 && w.bit7 == 1
      && w.rn == t.r0 && w.rd == 0 && w.rs == t.r0 && w.rm == t.r3
    else if IsRegisterShift(t.alu) then
      && Plain(w, 0, 13, 1, t.r0, 0) && w.bit4 == 1 && w.rm == t.r0 && w.rs == t.r3
      && w.shift == ShiftKind(t.alu)
    else Plain(w, 0, t.alu, 1, t.r0, t.r0) && Register(w, t.r3)
  }

  function OpcodeOf5(op2: bv2): bv4 { match op2 case 0 => 4 case 1 => 10 case _ => 13 }

  /** What the translation looks like, format by format. */
  predicate Translates(w: Arm, t: Thumb)
    requires Rewritten(t)
  {
    if t.op <= 2 then
      Plain(w, 0, 13, 1, t.r0, 0) && w.bit4 == 0 && w.shift == t.op as bv2 && w.amount == t.amount && w.rm == t.r3
    else if t.op == 3 then
      && Plain(w, t.bit10 as bv3, if t.bit9 == 0 then 4 else 2, 1, t.r0, t.r3)
      && Register(w, t.r6) && Immediate(w, t.imm3, 0)
    else if t.op <= 7 then Plain(w, 1, OpcodeOf3(t.op), 1, t.r8, t.r8) && Immediate(w, t.imm8, 0)
    else if t.op == 8 && t.bit10 == 0 then Format4Means(w, t)
    else if t.op == 8 && t.op2 == 3 then
      && w.cond == 14 && w.kind == 0 && w.op == 9 && w.s == 0 && w.bit4 == 1 && w.bit7 == 0
      && w.shift == t.bit7 as bv2 && w.rm == t.hm && (t.bit7 == 0 ==> w.ones == 0xFFF)
    else if t.op == 8 then
      Plain(w, 0, OpcodeOf5(t.op2), if t.op2 == 1 then 1 else 0, t.hd, t.hd) && Register(w, t.hm)
    else if t.op <= 21 then Plain(w, 1, 4, 0, t.r8, if t.op == 20 then 15 else 13) && Immediate(w, t.imm8, 15)
    else Plain(w, 1, if t.bit7 == 1 then 2 else 4, 0, 13, 13) && Immediate(w, t.imm7, 15)
  }

  lemma DecodeFields(b: bv32)
    requires b < 0x10000 && Rewritten(ThumbFieldsOf(b))
    ensures Translates(FieldsOf(Decode(b)), ThumbFieldsOf(b))
  {
    var op, t := (b & 0xF800) >> 11, ThumbFieldsOf(b);
    assert t.op as bv32 == op && (t.bit10 == 0 <==> b & 0x400 == 0);
    if op <= 2 { Format1Fields(b); }
    else if op == 3 { Format2Fields(b); }
    else if op <= 7 { Format3Fields(b); }
    else if op == 8 && b & 0x400 == 0 { Format4Fields(b); }
    else if op == 8 { Format5Fields(b); }
    else if op <= 21 { Format12Fields(b); }
    else { Format13Fields(b); }
  }

  lemma Format1Fields(b: bv32)
    requires b < 0x10000 && ThumbFieldsOf(b).op <= 2
    ensures Translates(FieldsOf(Format1(b)), ThumbFieldsOf(b))
  {
  }

  lemma Format2Fields(b: bv32)
    requires b < 0x10000 && ThumbFieldsOf(b).op == 3
    ensures Translates(FieldsOf(Format2(b)), ThumbFieldsOf(b))
  {
  }

  lemma Format3Fields(b: bv32)
    requires b < 0x10000 && 4 <= ThumbFieldsOf(b).op <= 7
    ensures Translates(FieldsOf(Format3(b)), ThumbFieldsOf(b))
  {
  }

  lemma Format4Fields(b: bv32)
    requires b < 0x10000 && ThumbFieldsOf(b).op == 8 && ThumbFieldsOf(b).bit10 == 0
    ensures Format4Means(FieldsOf(Format4Word(b)), ThumbFieldsOf(b))
  {
    hide FieldsOf, ThumbFieldsOf, NormWord, ShiftRegWord, NegWord, MulWord, Format4Means, Plain, Register;
    var n := ThumbFieldsOf(b).alu;
    TableIndex(b);
    if n == 9 {
      NegFields(b);
    } else if n == 13 {
      MulFields(b);
    } else if IsRegisterShift(n) {
      ShiftRegFields(ShiftKind(n), b);
      ShiftRegEntry(n);
      ShiftRegMeans(FieldsOf(Format4Word(b)), ThumbFieldsOf(b));
    } else {
      NormFields(n, b);
      NormMeansFields(FieldsOf(Format4Word(b)), ThumbFieldsOf(b));
    }
  }

  lemma TableIndex(b: bv32)
    ensures ((b & 0x03C0) >> 6) as bv4 == ThumbFieldsOf(b).alu
  {
  }

  lemma NegFields(b: bv32)
    requires ThumbFieldsOf(b).alu == 9
    ensures Format4Means(FieldsOf(NegWord(0xE2700000, b)), ThumbFieldsOf(b))
  {
  }

  lemma MulFields(b: bv32)
    requires ThumbFieldsOf(b).alu == 13
    ensures Format4Means(FieldsOf(MulWord(0xE0100090, b)), ThumbFieldsOf(b))
  {
  }

  lemma ShiftRegEntry(n: bv4)
    requires IsRegisterShift(n)
    ensures Entry(n) == Format4(0xE1B00010 | (ShiftKind(n) as bv32 << 5), ShiftReg)
  {
  }

  lemma ShiftRegMeans(w: Arm, t: Thumb)
    requires IsRegisterShift(t.alu) && Plain(w, 0, 13, 1, t.r0, 0) && w.bit4 == 1 && w.rm == t.r0 && w.rs == t.r3
    requires w.shift == ShiftKind(t.alu)
    ensures Format4Means(w, t)
  {
    hide Plain, ShiftKind;
  }

  lemma NormMeansFields(w: Arm, t: Thumb)
    requires t.alu != 9 && t.alu != 13 && !IsRegisterShift(t.alu)
    requires Plain(w, 0, t.alu, 1, t.r0, t.r0) && Register(w, t.r3)
    ensures Format4Means(w, t)
  {
    hide Plain, Register;
  }

  lemma NormFields(n: bv4, b: bv32)
    requires n != 9 && n != 13 && !IsRegisterShift(n)
    ensures Entry(n).otype == Norm
    ensures var w, t := FieldsOf(NormWord(Entry(n).opcode, b)), ThumbFieldsOf(b);
      Plain(w, 0, n, 1, t.r0, t.r0) && Register(w, t.r3)
  {
  }

  lemma ShiftRegFields(k: bv2, b: bv32)
    ensures var w, t := FieldsOf(ShiftRegWord(0xE1B00010 | (k as bv32 << 5), b)), ThumbFieldsOf(b);
      Plain(w, 0, 13, 1, t.r0, 0) && w.bit4 == 1 && w.shift == k && w.rm == t.r0 && w.rs == t.r3
  {
  }

  lemma Format5Fields(b: bv32)
    requires b < 0x10000 && ThumbFieldsOf(b).op == 8 && ThumbFieldsOf(b).bit10 == 1
    ensures Translates(FieldsOf(Format5(b)), ThumbFieldsOf(b))
  {
    hide FieldsOf, ThumbFieldsOf, Format5;
    var op2 := ThumbFieldsOf(b).op2;
    if op2 == 3 {
      ExchangeFields(b);
    } else {
      Format5Word(b);
      BaseFields5(op2);
      HighFields(OpcodeBase5(op2), b);
    }
  }

  lemma ExchangeFields(b: bv32)
    requires b < 0x10000 && ThumbFieldsOf(b).op == 8 && ThumbFieldsOf(b).bit10 == 1 && ThumbFieldsOf(b).op2 == 3
    ensures Translates(FieldsOf(Format5(b)), ThumbFieldsOf(b))
  {
  }

  function OpcodeBase5(op2: bv2): bv32 { match op2 case 0 => 0xE0800000 case 1 => 0xE1500000 case _ => 0xE1A00000 }

  lemma Format5Word(b: bv32)
    requires ThumbFieldsOf(b).op2 != 3
    ensures Format5(b) == HighWord(OpcodeBase5(ThumbFieldsOf(b).op2), b)
  {
    hide HighWord;
  }

  lemma BaseFields5(op2: bv2)
    ensures OpcodeBase5(op2) & 0xF_FFFF == 0
    ensures op2 != 3 ==> Plain(FieldsOf(OpcodeBase5(op2)), 0, OpcodeOf5(op2), if op2 == 1 then 1 else 0, 0, 0)
  {
  }

  lemma HighFields(base: bv32, b: bv32)
    requires base & 0xF_FFFF == 0
    ensures var w, t, v := FieldsOf(HighWord(base, b)), ThumbFieldsOf(b), FieldsOf(base);
      && w.rd == t.hd && w.rn == t.hd && Register(w, t.hm)
      && w.cond == v.cond && w.kind == v.kind && w.op == v.op && w.s == v.s
  {
  }

  lemma Format12Fields(b: bv32)
    requires b < 0x10000 && 20 <= ThumbFieldsOf(b).op <= 21
    ensures Translates(FieldsOf(Format12(b)), ThumbFieldsOf(b))
  {
  }

  lemma Format13Fields(b: bv32)
    requires b < 0x10000 && ThumbFieldsOf(b).op == 22 && ThumbFieldsOf(b).op4 == 0
    ensures Translates(FieldsOf(Format13(b)), ThumbFieldsOf(b))
  {
  }

  // ---- The translation preserves meaning ---------------------------------

  /** ADD PC, Rm from an instruction that is not word-aligned: the manual adds to the PC as it is read
      (section A7.1.6), the ARM instruction to the PC rounded down to a word. */
  predicate AddsToUnalignedPc(a: Core, t: Thumb) {
    t.op == 8 && t.bit10 == 1 && t.op2 == 0 && t.hd == 15 && a.pc % 4 == 2
  }

  /** A rewritten Thumb instruction and its ARM translation have the same effect on every state, except
      for that one case, in which they always differ. */
  lemma TranslationPreservesMeaning(a: Core, b: bv32)
    requires WellFormed(a) && a.thumb && b < 0x10000
    requires LowRegisters(ThumbFieldsOf(b)) && Rewritten(ThumbFieldsOf(b)) && ThumbStep(a, ThumbFieldsOf(b)).Some?
    ensures ArmStep(a, FieldsOf(Decode(b))) == ThumbStep(a, ThumbFieldsOf(b))
      <==> !AddsToUnalignedPc(a, ThumbFieldsOf(b))
  {
    var w, t := FieldsOf(Decode(b)), ThumbFieldsOf(b);
    DecodeFields(b);
    hide FieldsOf, ThumbFieldsOf, Decode;
    if t.op <= 2 {
      TranslateShift(a, w, t);
    } else if t.op == 3 {
      TranslateAddSubtract(a, w, t);
    } else if t.op <= 7 {
      TranslateImmediate(a, w, t);
    } else if t.op == 8 && t.bit10 == 0 {
      TranslateAlu(a, w, t);
    } else if t.op == 8 && t.op2 == 3 {
      TranslateExchange(a, w, t);
    } else if t.op == 8 {
      TranslateHigh(a, w, t);
    } else if t.op <= 21 {
      TranslateAddress(a, w, t);
    } else {
      TranslateStackPointer(a, w, t);
    }
  }

  lemma ShiftZero(k: Shift, x: u32, c: bool)
    ensures ShiftBy(k, x, c, 0) == Shifted(x, c)
  {
  }

  lemma SumValue(x: u32, y: u32)
    ensures AddWith(x, y, false).value == Wrap(x + y) && SubWith(x, y, true).value == Wrap(x - y)
  {
  }

  /** An unconditional flag-setting data-processing instruction on low registers. */
  lemma SettingFlags(a: Core, w: Arm, kind: bv3, op: bv4, rd: bv4, rn: bv4)
    requires WellFormed(a) && kind <= 1 && Plain(w, kind, op, 1, rd, rn) && rd != 15 && rn != 15
    requires ShifterOperand(a, w).Some?
    ensures var o := Compute(OpcodeOf(op), Read(a, rn), ShifterOperand(a, w).value, a.f);
      ArmStep(a, w) == if IsTest(OpcodeOf(op)) then SetFlags(a, o) else SetWithFlags(a, rd, o)
  {
    hide Compute, ShifterOperand, Read, Next;
    assert ArmStep(a, w) == DataProcessing(a, w);
  }

  lemma TranslateShift(a: Core, w: Arm, t: Thumb)
    requires WellFormed(a) && a.thumb && LowRegisters(t) && t.op <= 2 && Translates(w, t)
    ensures ArmStep(a, w) == ThumbStep(a, t)
  {
    hide ArmStep, SetWithFlags, Read, Logical, ShiftOf, Size, ShifterOperand, ConstantShift, Compute, OpcodeOf, IsTest,
      ThumbStep;
    ConstantOperand(a, w);
    SettingFlags(a, w, 0, 13, t.r0, 0);
    MoveMeans(Read(a, 0), ShifterOperand(a, w).value, a.f);
    ConstantShiftMeans(a, t);
  }

  /** MOV passes the shifter operand on. */
  lemma MoveMeans(x: u32, y: Shifted, f: Flags)
    ensures !IsTest(OpcodeOf(13)) && Compute(OpcodeOf(13), x, y, f) == Logical(y.value, y.carry, f)
  {
    hide Logical, BitAnd, BitOr, BitXor, BitNot, AddWith, SubWith, Arithmetic;
  }

  lemma ConstantOperand(a: Core, w: Arm)
    requires |a.r| == 15 && w.kind == 0 && w.bit4 == 0
    ensures ShifterOperand(a, w) == Some(ConstantShift(ShiftOf(w.shift), Read(a, w.rm), a.f.c, w.amount as nat))
  {
    hide Read, ConstantShift, ShiftOf;
  }

  lemma ConstantShiftMeans(a: Core, t: Thumb)
    requires |a.r| == 15 && LowRegisters(t) && t.op <= 2
    ensures var y := ConstantShift(ShiftOf(t.op as bv2), Read(a, t.r3), a.f.c, t.amount as nat);
      ThumbStep(a, t) == SetWithFlags(a, t.r0, Logical(y.value, y.carry, a.f))
  {
    hide SetWithFlags, SetFlags, Read, ReadPc, Set, Next, AlignDown, Wrap, ShiftBy, AddWith, SubWith, Logical,
      Arithmetic, ThumbBranch, ThumbHigh, ThumbAlu;
  }

  lemma TranslateAddSubtract(a: Core, w: Arm, t: Thumb)
    requires WellFormed(a) && a.thumb && LowRegisters(t) && t.op == 3 && Translates(w, t)
    ensures ArmStep(a, w) == ThumbStep(a, t)
  {
    hide ArmStep, SetWithFlags, SetFlags, Read, ReadPc, Set, Next, AlignDown, Wrap, ShiftBy, AddWith, SubWith, BitAnd,
      BitOr, BitXor, BitNot, Logical, Arithmetic, ThumbBranch, ThumbHigh, ThumbAlu, ShiftResult;
    SettingFlags(a, w, t.bit10 as bv3, if t.bit9 == 0 then 4 else 2, t.r0, t.r3);
    ShiftZero(LSL, Read(a, t.r6), a.f.c);
    ShiftZero(ROR, t.imm3 as nat, a.f.c);
  }

  lemma TranslateImmediate(a: Core, w: Arm, t: Thumb)
    requires WellFormed(a) && a.thumb && LowRegisters(t) && 4 <= t.op <= 7 && Translates(w, t)
    ensures ArmStep(a, w) == ThumbStep(a, t)
  {
    hide ArmStep, SetWithFlags, SetFlags, Read, ShifterOperand, Compute, ThumbStep, OpcodeOf, IsTest, OpcodeOf3, Size;
    ImmediateOperand(a, w);
    SettingFlags(a, w, 1, OpcodeOf3(t.op), t.r8, t.r8);
    ImmediateMeans(a, t);
  }

  lemma ImmediateOperand(a: Core, w: Arm)
    requires |a.r| == 15 && w.kind == 1 && w.rs == 0
    ensures ShifterOperand(a, w) == Some(Shifted(w.imm8 as nat, a.f.c))
  {
    ShiftZero(ROR, w.imm8 as nat, a.f.c);
  }

  lemma ImmediateMeans(a: Core, t: Thumb)
    requires |a.r| == 15 && LowRegisters(t) && 4 <= t.op <= 7
    ensures var op := OpcodeOf(OpcodeOf3(t.op));
      var o := Compute(op, Read(a, t.r8), Shifted(t.imm8 as nat, a.f.c), a.f);
      ThumbStep(a, t) == if IsTest(op) then SetFlags(a, o) else SetWithFlags(a, t.r8, o)
  {
    hide SetWithFlags, SetFlags, Read, ReadPc, Set, Next, AlignDown, Wrap, ShiftBy, AddWith, SubWith, Logical,
      Arithmetic, ThumbBranch, ThumbHigh, ThumbAlu, ShiftResult, BitAnd, BitOr, BitXor, BitNot;
  }

  lemma TranslateAlu(a: Core, w: Arm, t: Thumb)
    requires WellFormed(a) && a.thumb && LowRegisters(t) && t.op == 8 && t.bit10 == 0 && Translates(w, t)
    ensures ArmStep(a, w) == ThumbStep(a, t)
  {
    hide ArmStep, ThumbAlu, ThumbBranch, ThumbHigh, Read, ReadPc, Set, Next, AlignDown, Wrap;
    assert ThumbStep(a, t) == ThumbAlu(a, t.alu, t.r0, t.r3);
    if t.alu == 9 {
      TranslateNegate(a, w, t);
    } else if t.alu == 13 {
      TranslateMultiply(a, w, t);
    } else if IsRegisterShift(t.alu) {
      TranslateRegisterShift(a, w, t);
    } else {
      TranslateNorm(a, w, t);
    }
  }

  lemma TranslateNegate(a: Core, w: Arm, t: Thumb)
    requires WellFormed(a) && a.thumb && t.r0 < 8 && t.r3 < 8 && t.alu == 9 && Format4Means(w, t)
    ensures ArmStep(a, w) == ThumbAlu(a, t.alu, t.r0, t.r3)
  {
    hide ArmStep, SetWithFlags, Read, ShiftBy, Compute, OpcodeOf, IsTest, ThumbAlu;
    ShiftZero(ROR, 0, a.f.c);
    SettingFlags(a, w, 1, 3, t.r0, t.r3);
    NegateMeans(a, t.r0, t.r3);
  }

  lemma NegateMeans(a: Core, rd: bv4, rm: bv4)
    requires |a.r| == 15 && rd != 15
    ensures !IsTest(OpcodeOf(3))
    ensures ThumbAlu(a, 9, rd, rm) == SetWithFlags(a, rd, Compute(OpcodeOf(3), Read(a, rm), Shifted(0, a.f.c), a.f))
  {
    hide SetWithFlags, SetFlags, Read, AddWith, SubWith, BitAnd, BitOr, BitXor, BitNot, Logical, Arithmetic, Wrap,
      ShiftResult;
  }

  lemma TranslateRegisterShift(a: Core, w: Arm, t: Thumb)
    requires WellFormed(a) && a.thumb && t.r0 < 8 && t.r3 < 8 && IsRegisterShift(t.alu) && Format4Means(w, t)
    ensures ArmStep(a, w) == ThumbAlu(a, t.alu, t.r0, t.r3)
  {
    hide ArmStep, ThumbAlu, SetWithFlags, ShiftResult, Read, ShiftOf, ShiftKind;
    MoveShifted(a, w, t.r0);
    RegisterShiftMeans(a, t.alu, t.r0, t.r3);
  }

  /** MOVS of a register shifted by a register. */
  lemma MoveShifted(a: Core, w: Arm, rd: bv4)
    requires WellFormed(a) && Plain(w, 0, 13, 1, rd, 0) && rd < 8 && w.bit4 == 1 && w.rm == rd && w.rs < 8
    ensures ArmStep(a, w) == SetWithFlags(a, rd, ShiftResult(a, ShiftOf(w.shift), Read(a, rd), Read(a, w.rs) % 256))
  {
    hide ArmStep, SetWithFlags, Read, Logical, ShiftOf, Size, ShifterOperand, ShiftBy, Compute, OpcodeOf, IsTest;
    RegisterOperand(a, w);
    SettingFlags(a, w, 0, 13, rd, 0);
    MoveMeans(Read(a, 0), ShifterOperand(a, w).value, a.f);
  }

  lemma RegisterOperand(a: Core, w: Arm)
    requires |a.r| == 15 && w.kind == 0 && w.bit4 == 1 && w.rm < 8 && w.rs < 8 && w.rn < 8 && w.rd < 8
    ensures ShifterOperand(a, w) == Some(ShiftBy(ShiftOf(w.shift), Read(a, w.rm), a.f.c, Read(a, w.rs) % 256))
  {
    hide Read, ShiftBy, ConstantShift, ShiftOf;
  }

  lemma RegisterShiftMeans(a: Core, op: bv4, rd: bv4, rm: bv4)
    requires |a.r| == 15 && rd != 15 && IsRegisterShift(op)
    ensures ThumbAlu(a, op, rd, rm)
      == SetWithFlags(a, rd, ShiftResult(a, ShiftOf(ShiftKind(op)), Read(a, rd), Read(a, rm) % 256))
  {
    hide SetWithFlags, SetFlags, Read, ShiftResult, AddWith, SubWith, BitAnd, BitOr, BitXor, BitNot, Logical,
      Arithmetic, Wrap;
  }

  lemma TranslateNorm(a: Core, w: Arm, t: Thumb)
    requires WellFormed(a) && a.thumb && t.r0 < 8 && t.r3 < 8 && Format4Means(w, t)
    requires t.alu != 9 && t.alu != 13 && !IsRegisterShift(t.alu)
    ensures ArmStep(a, w) == ThumbAlu(a, t.alu, t.r0, t.r3)
  {
    hide ArmStep, SetWithFlags, SetFlags, Read, ShiftBy, Compute, ThumbAlu, Size, OpcodeOf, IsTest;
    SettingFlags(a, w, 0, t.alu, t.r0, t.r0);
    ShiftZero(LSL, Read(a, t.r3), a.f.c);
    NormMeans(a, t.alu, t.r0, t.r3);
  }

  lemma NormMeans(a: Core, op: bv4, rd: bv4, rm: bv4)
    requires |a.r| == 15 && rd != 15 && op != 9 && op != 13 && !IsRegisterShift(op)
    ensures var o := Compute(OpcodeOf(op), Read(a, rd), Shifted(Read(a, rm), a.f.c), a.f);
      ThumbAlu(a, op, rd, rm) == if IsTest(OpcodeOf(op)) then SetFlags(a, o) else SetWithFlags(a, rd, o)
  {
    hide SetWithFlags, SetFlags, Read, ShiftBy, AddWith, SubWith, BitAnd, BitOr, BitXor, BitNot, Logical, Arithmetic,
      Wrap, ShiftResult;
  }

  lemma TranslateMultiply(a: Core, w: Arm, t: Thumb)
    requires WellFormed(a) && a.thumb && t.r0 < 8 && t.r3 < 8 && t.alu == 13 && Format4Means(w, t)
    ensures ArmStep(a, w) == ThumbAlu(a, t.alu, t.r0, t.r3)
  {
    hide Read, Next, BitAnd, BitXor, BitOr, BitNot, AddWith, SubWith, ShiftResult, Arithmetic, Wrap;
    ArmMultiply(a, w);
  }

  lemma ArmMultiply(a: Core, w: Arm)
    requires |a.r| == 15 && w.cond == 14 && w.kind == 0 && w.bit4 == 1 && w.bit7 == 1 && w.op <= 3
    ensures ArmStep(a, w) == Multiply(a, w)
  {
    hide Multiply, MultiplyLong, DataProcessing, BranchRegister, Branch, Next;
  }

  lemma TranslateExchange(a: Core, w: Arm, t: Thumb)
    requires WellFormed(a) && a.thumb && LowRegisters(t) && t.op == 8 && t.bit10 == 1 && t.op2 == 3 && Translates(w, t)
    ensures ArmStep(a, w) == ThumbStep(a, t)
  {
  }

  lemma TranslateHigh(a: Core, w: Arm, t: Thumb)
    requires WellFormed(a) && a.thumb && LowRegisters(t) && t.op == 8 && t.bit10 == 1 && t.op2 <= 2 && Translates(w, t)
    requires ThumbStep(a, t).Some?
    ensures ArmStep(a, w) == ThumbStep(a, t) <==> !AddsToUnalignedPc(a, t)
  {
    hide ArmStep, SetFlags, Read, ReadPc, Set, Next, AlignDown, ShiftBy, AddWith, SubWith, BitAnd, BitOr, BitXor,
      BitNot, Logical, Compute, FirstOperand, ThumbBranch, ThumbAlu, ThumbHigh, WriteHigh;
    assert ThumbStep(a, t) == ThumbHigh(a, t);
    if t.op2 == 1 {
      CompareHigh(a, w, t);
    } else {
      MoveHigh(a, w, t);
    }
  }

  lemma CompareHigh(a: Core, w: Arm, t: Thumb)
    requires WellFormed(a) && a.thumb && t.op2 == 1 && ThumbHigh(a, t).Some?
    requires Plain(w, 0, 10, 1, t.hd, t.hd) && Register(w, t.hm)
    ensures ArmStep(a, w) == ThumbHigh(a, t)
  {
    hide ArmStep, SetFlags, Read, ShiftBy, AddWith, SubWith, BitAnd, BitOr, BitXor, BitNot, Logical, Arithmetic,
      WriteHigh;
    ShiftZero(LSL, Read(a, t.hm), a.f.c);
    SettingFlags(a, w, 0, 10, t.hd, t.hd);
  }

  lemma MoveHigh(a: Core, w: Arm, t: Thumb)
    requires WellFormed(a) && a.thumb && (t.op2 == 0 || t.op2 == 2)
    requires Plain(w, 0, OpcodeOf5(t.op2), 0, t.hd, t.hd) && Register(w, t.hm)
    ensures ArmStep(a, w) == ThumbHigh(a, t) <==> !(t.op2 == 0 && t.hd == 15 && a.pc % 4 == 2)
  {
    hide ArmStep, SetFlags, ReadPc, AlignDown, ShiftBy, AddWith, SubWith, BitAnd, BitOr, BitXor, BitNot, WriteHigh,
      Index;
    var y := Read(a, t.hm);
    ShiftZero(LSL, y, a.f.c);
    MovingHigh(a, w, OpcodeOf5(t.op2), t.hd);
    SumValue(FirstOperand(a, t.hd), y);
    if t.op2 == 0 && t.hd == 15 { AddToPc(a, y); }
  }

  /** ADD and MOV without flags, with any destination. */
  lemma MovingHigh(a: Core, w: Arm, op: bv4, rd: bv4)
    requires WellFormed(a) && a.thumb && Plain(w, 0, op, 0, rd, rd) && (op == 4 || op == 13)
    requires ShifterOperand(a, w).Some?
    ensures var o := Compute(OpcodeOf(op), FirstOperand(a, rd), ShifterOperand(a, w).value, a.f);
      ArmStep(a, w) == Some(WriteHigh(a, rd, o.value))
  {
    hide Compute, ShifterOperand, Read, AlignDown, FirstOperand;
    assert ArmStep(a, w) == DataProcessing(a, w);
  }

  lemma AddToPc(a: Core, y: u32)
    requires WellFormed(a) && a.thumb
    ensures WriteHigh(a, 15, Wrap(FirstOperand(a, 15) + y)) == WriteHigh(a, 15, Wrap(Read(a, 15) + y))
      <==> a.pc % 4 != 2
  {
    hide AlignDown, Wrap;
    assert a.pc % 2 == 0;
    UnalignedSum(a.pc, y);
  }

  /** Two targets that are a halfword apart stay apart when they are made even. */
  lemma UnalignedSum(pc: u32, y: u32)
    requires pc % 2 == 0
    ensures var read := Wrap(pc + 4);
      AlignDown(Wrap(AlignDown(read, 4) + y), 2) == AlignDown(Wrap(read + y), 2) <==> pc % 4 != 2
  {
    hide Wrap;
    var read := Wrap(pc + 4);
    ReadRemainder(pc);
    if pc % 4 == 2 {
      HalfwordApart(read + y);
    }
  }

  lemma ReadRemainder(pc: u32)
    requires pc % 2 == 0
    ensures Wrap(pc + 4) % 4 == if pc % 4 == 2 then 2 else 0
  {
    if pc + 4 < TWO32 { SameRemainder(pc, 1, 4); } else { SameRemainder(pc, 1 - 0x4000_0000, 4); }
  }

  lemma HalfwordApart(s: nat)
    requires s >= 2
    ensures AlignDown(Wrap(s - 2), 2) != AlignDown(Wrap(s), 2)
  {
  }

  /** An unconditional data-processing instruction that leaves the flags alone. */
  lemma KeepingFlags(a: Core, w: Arm, kind: bv3, op: bv4, rd: bv4, rn: bv4)
    requires WellFormed(a) && kind <= 1 && Plain(w, kind, op, 0, rd, rn) && rd != 15 && (op == 4 || op == 2)
    requires ShifterOperand(a, w).Some?
    ensures var o := Compute(OpcodeOf(op), FirstOperand(a, rn), ShifterOperand(a, w).value, a.f);
      ArmStep(a, w) == Some(Set(Next(a), rd, o.value))
  {
    hide Compute, ShifterOperand, Read, Next, FirstOperand;
    assert ArmStep(a, w) == DataProcessing(a, w);
  }

  lemma TranslateAddress(a: Core, w: Arm, t: Thumb)
    requires WellFormed(a) && a.thumb && LowRegisters(t) && 20 <= t.op <= 21 && Translates(w, t)
    ensures ArmStep(a, w) == ThumbStep(a, t)
  {
    hide ArmStep, SetWithFlags, SetFlags, ReadPc, Set, Next, AlignDown, ShiftBy, AddWith, SubWith, BitAnd, BitOr,
      BitXor, BitNot, Logical, ThumbBranch, ThumbHigh, ThumbAlu, ShiftResult;
    var rn := if t.op == 20 then 15 else 13;
    KeepingFlags(a, w, 1, 4, t.r8, rn);
    ScaledImmediate(t.imm8 as nat, a.f.c);
    SumValue(FirstOperand(a, rn), 4 * (t.imm8 as nat));
  }

  lemma TranslateStackPointer(a: Core, w: Arm, t: Thumb)
    requires WellFormed(a) && a.thumb && LowRegisters(t) && t.op == 22 && t.op4 == 0 && Translates(w, t)
    ensures ArmStep(a, w) == ThumbStep(a, t)
  {
    hide ArmStep, SetWithFlags, SetFlags, ReadPc, Set, Next, AlignDown, ShiftBy, AddWith, SubWith, BitAnd, BitOr,
      BitXor, BitNot, Logical, ThumbBranch, ThumbHigh, ThumbAlu, ShiftResult;
    KeepingFlags(a, w, 1, if t.bit7 == 1 then 2 else 4, 13, 13);
    ScaledImmediate(t.imm7 as nat, a.f.c);
    SumValue(a.r[13], 4 * (t.imm7 as nat));
  }

  /** A byte rotated right by 30 is four times the byte. */
  lemma ScaledImmediate(x: nat, c: bool)
    requires x < 256
    ensures ShiftBy(ROR, x, c, 30).value == 4 * x
  {
    hide Pow2, ShiftBy;
    RorClosed(x, c, 30);
    Pow2At32();
    DivUnique(x, Pow2(30), 0, x);
  }
}
