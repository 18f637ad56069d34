/** The programmer's model that the emulator has to present, after the ARM Architecture Reference
    Manual, ARM DDI 0100I: what one ARM or Thumb instruction does to r0-r14, the PC and the status register.
    Arithmetic and its flags are stated on unbounded integers, shifts bit by bit. An instruction that
    is outside the modelled classes, or whose result the manual leaves UNPREDICTABLE, has no meaning
    here (`None`). */
module Architecture {
  import opened Words
  import opened Shifter
  import opened LongMultiply

  datatype Flags = Flags(n: bool, z: bool, c: bool, v: bool)

  /** The status bits that the modelled instructions leave alone: Q, GE (in bits 16 to 19 of its word), E and A, and I
      and F together. */
  datatype Others = Others(q: bool, ge: u32, e: bool, a: bool, i: u2)

  /** Registers, instruction address and status bits; `psr` is the status register as the last branch with exchange left
      it. */
  datatype Core = Core(r: seq<u32>, pc: u32, f: Flags, thumb: bool, other: Others, psr: u32)

  /** Supervisor mode. */
  const MODE: nat := 0x13

  /** The status register (section A2.5). */
  function StatusWord(f: Flags, thumb: bool, o: Others): u32 {
    hide GeBits;
    BitOf(f.n) * 0x8000_0000 + BitOf(f.z) * 0x4000_0000 + BitOf(f.c) * 0x2000_0000 + BitOf(f.v) * 0x1000_0000
    + BitOf(o.q) * 0x0800_0000 + GeBits(o.ge) + BitOf(o.e) * 0x200 + BitOf(o.a) * 0x100 + o.i * 0x40
    + BitOf(thumb) * 0x20 + MODE
  }

  /** The GE bits in their place. */
  function GeBits(ge: u32): (x: u32)
    ensures x <= 0xF_0000
  {
    Field(ge, 0x1_0000, 16) * 0x1_0000
  }

  /** `x / d` modulo m: with powers of two, a bit field of a word. */
  function Field(x: nat, d: nat, m: nat): (r: nat)
    requires d >= 1 && m >= 1
    ensures r < m
  {
    x / d % m
  }

  /** The parts of a status register. */
  function FlagsIn(psr: u32): Flags {
    Flags(Field(psr, 0x8000_0000, 2) == 1, Field(psr, 0x4000_0000, 2) == 1, Field(psr, 0x2000_0000, 2) == 1,
          Field(psr, 0x1000_0000, 2) == 1)
  }

  function BitsIn(psr: u32, e: bool, a: bool): Others {
    Others(Field(psr, 0x0800_0000, 2) == 1, GeBits(psr), e, a, Field(psr, 0x40, 4))
  }

  predicate ThumbIn(psr: u32) { Field(psr, 0x20, 2) == 1 }

  /** Every part of a status register can be read back; its mode is fixed. */
  lemma StatusReadsBack(f: Flags, thumb: bool, o: Others)
    ensures var psr := StatusWord(f, thumb, o);
      && FlagsIn(psr) == f && ThumbIn(psr) == thumb && BitsIn(psr, o.e, o.a) == o.(ge := GeBits(o.ge))
      && Field(psr, 1, 32) == MODE
  {
    hide BitOf, Field, StatusWord;
    StatusFields(f, thumb, o);
    BitBound(f.n);
    BitBound(f.z);
    BitBound(f.c);
    BitBound(f.v);
    BitBound(o.q);
    BitBound(thumb);
  }

  lemma BitBound(b: bool)
    ensures BitOf(b) <= 1 && (BitOf(b) == 1 <==> b)
  {
  }

  lemma StatusFields(f: Flags, thumb: bool, o: Others)
    ensures var x := StatusWord(f, thumb, o);
      && Field(x, 0x8000_0000, 2) == BitOf(f.n) && Field(x, 0x4000_0000, 2) == BitOf(f.z)
      && Field(x, 0x2000_0000, 2) == BitOf(f.c) && Field(x, 0x1000_0000, 2) == BitOf(f.v)
      && Field(x, 0x0800_0000, 2) == BitOf(o.q) && Field(x, 0x1_0000, 16) == Field(o.ge, 0x1_0000, 16)
      && Field(x, 0x40, 4) == o.i && Field(x, 0x20, 2) == BitOf(thumb) && Field(x, 1, 32) == MODE
  {
    hide BitOf, Field, StatusWord;
    StatusIsSum(f, thumb, o);
    BitBound(f.n);
    BitBound(f.z);
    BitBound(f.c);
    BitBound(f.v);
    BitBound(o.q);
    BitBound(o.e);
    BitBound(o.a);
    BitBound(thumb);
    FieldsOfSum(BitOf(f.n), BitOf(f.z), BitOf(f.c), BitOf(f.v), BitOf(o.q), Field(o.ge, 0x1_0000, 16),
                BitOf(o.e) * 2 + BitOf(o.a), o.i, BitOf(thumb));
  }

  /** Where the status bits lie, in supervisor mode with interrupts off: N, Z, C, V, Q and T, and nothing else. */
  lemma StatusBits()
    ensures StatusWord(Flags(false, false, false, false), false, RESET_BITS) == 0x0000_00D3
    ensures StatusWord(Flags(true, false, false, false), false, RESET_BITS) == 0x8000_00D3
    ensures StatusWord(Flags(false, true, false, false), false, RESET_BITS) == 0x4000_00D3
    ensures StatusWord(Flags(false, false, true, false), false, RESET_BITS) == 0x2000_00D3
    ensures StatusWord(Flags(false, false, false, true), false, RESET_BITS) == 0x1000_00D3
    ensures StatusWord(Flags(false, false, false, false), false, RESET_BITS.(q := true)) == 0x0800_00D3
    ensures StatusWord(Flags(false, false, false, false), true, RESET_BITS) == 0x0000_00F3
  {
  }

  lemma StatusIsSum(f: Flags, thumb: bool, o: Others)
    ensures StatusWord(f, thumb, o) ==
      BitOf(f.n) * 0x8000_0000 + BitOf(f.z) * 0x4000_0000 + BitOf(f.c) * 0x2000_0000 + BitOf(f.v) * 0x1000_0000
      + BitOf(o.q) * 0x0800_0000 + Field(o.ge, 0x1_0000, 16) * 0x1_0000 + (BitOf(o.e) * 2 + BitOf(o.a)) * 0x100
      + o.i * 0x40 + BitOf(thumb) * 0x20 + MODE
  {
    hide BitOf, Field;
  }

  lemma FieldsOfSum(n: nat, z: nat, c: nat, v: nat, q: nat, ge: nat, ea: nat, i: nat, t: nat)
    requires n <= 1 && z <= 1 && c <= 1 && v <= 1 && q <= 1 && ge < 16 && ea < 4 && i < 4 && t <= 1
    ensures var x := n * 0x8000_0000 + z * 0x4000_0000 + c * 0x2000_0000 + v * 0x1000_0000 + q * 0x0800_0000
                     + ge * 0x1_0000 + ea * 0x100 + i * 0x40 + t * 0x20 + MODE;
      && Field(x, 0x8000_0000, 2) == n && Field(x, 0x4000_0000, 2) == z && Field(x, 0x2000_0000, 2) == c
      && Field(x, 0x1000_0000, 2) == v && Field(x, 0x0800_0000, 2) == q && Field(x, 0x1_0000, 16) == ge
      && Field(x, 0x40, 4) == i && Field(x, 0x20, 2) == t && Field(x, 1, 32) == MODE
  {
    hide Field;
    var low := ea * 0x100 + i * 0x40 + t * 0x20 + MODE;
    var high := 16 * n + 8 * z + 4 * c + 2 * v + q;
    var x := high * 0x0800_0000 + ge * 0x1_0000 + low;
    FieldAt(x, 0x8000_0000, 2, 0, n);
    FieldAt(x, 0x4000_0000, 2, n, z);
    FieldAt(x, 0x2000_0000, 2, 2 * n + z, c);
    FieldAt(x, 0x1000_0000, 2, 4 * n + 2 * z + c, v);
    FieldAt(x, 0x0800_0000, 2, 8 * n + 4 * z + 2 * c + v, q);
    FieldAt(x, 0x1_0000, 16, 0x80 * high, ge);
    FieldAt(x, 0x40, 4, 0x8_0000 * high + 0x100 * ge + ea, i);
    FieldAt(x, 0x20, 2, 0x20_0000 * high + 0x400 * ge + 4 * ea + i, t);
    FieldAt(x, 1, 32, 0x40_0000 * high + 0x800 * ge + 8 * ea + 2 * i + t, MODE);
  }

  /** One field of a number: what is above it and what is below it do not matter. */
  lemma FieldAt(x: nat, d: nat, m: nat, high: int, field: int)
    requires d >= 1 && 0 <= field < m && 0 <= x - (high * m + field) * d < d
    ensures Field(x, d, m) == field
  {
    Regroup(d, 1, high * m, field);
    DivUnique(x, d, high * m + field, x - (high * m + field) * d);
    DivUnique(high * m + field, m, high, field);
  }

  /** After reset: interrupts are off, and all other bits but the mode are zero. */
  const RESET_BITS: Others := Others(false, 0, false, false, 3)
  const RESET_PSR: u32 := 0xD3

  /** Fifteen general registers and an instruction address aligned for the instruction set in use. */
  predicate WellFormed(a: Core) {
    && |a.r| == 15
    && a.pc % Size(a.thumb) == 0
  }

  function Size(thumb: bool): nat { if thumb then 2 else 4 }

  lemma ResetParts()
    ensures FlagsIn(RESET_PSR) == Flags(false, false, false, false) && !ThumbIn(RESET_PSR)
    ensures BitsIn(RESET_PSR, false, false) == RESET_BITS
  {
  }

  // ---- Instruction fields ------------------------------------------------

  /** The fields of an ARM instruction that the modelled classes use. */
  datatype Arm = Arm(cond: bv4, kind: bv3, op: bv4, s: bv1, rn: bv4, rd: bv4, rs: bv4, rm: bv4,
                     bit4: bv1, shift: bv2, bit7: bv1, amount: bv5, imm8: bv8, ones: bv12, low23: bv23)

  function FieldsOf(w: bv32): Arm {
    Arm(((w >> 28) & 15) as bv4, ((w >> 25) & 7) as bv3, ((w >> 21) & 15) as bv4, ((w >> 20) & 1) as bv1,
        ((w >> 16) & 15) as bv4, ((w >> 12) & 15) as bv4, ((w >> 8) & 15) as bv4, (w & 15) as bv4,
        ((w >> 4) & 1) as bv1, ((w >> 5) & 3) as bv2, ((w >> 7) & 1) as bv1, ((w >> 7) & 31) as bv5,
        (w & 255) as bv8, ((w >> 8) & 0xFFF) as bv12, (w & 0x7F_FFFF) as bv23)
  }

  /** The fields of a Thumb instruction. Register numbers are widened to four bits: r0 is bits 0-2,
      r3 bits 3-5, r6 bits 6-8, r8 bits 8-10; `hd` and `hm` are those of format 5. */
  datatype Thumb = Thumb(op: bv5, r0: bv4, r3: bv4, r6: bv4, r8: bv4, hd: bv4, hm: bv4, alu: bv4, amount: bv5,
                         op2: bv2, op4: bv4, bit7: bv1, bit9: bv1, bit10: bv1,
                         imm3: bv8, imm7: bv8, imm8: bv8, imm10: bv10, imm11: bv11)

  function ThumbFieldsOf(t: bv32): Thumb {
    Thumb(((t >> 11) & 31) as bv5, (t & 7) as bv4, ((t >> 3) & 7) as bv4, ((t >> 6) & 7) as bv4, ((t >> 8) & 7) as bv4,
          ((t & 7) | ((t >> 4) & 8)) as bv4, ((t >> 3) & 15) as bv4, ((t >> 6) & 15) as bv4, ((t >> 6) & 31) as bv5,
          ((t >> 8) & 3) as bv2, ((t >> 8) & 15) as bv4,
          ((t >> 7) & 1) as bv1, ((t >> 9) & 1) as bv1, ((t >> 10) & 1) as bv1,
          ((t >> 6) & 7) as bv8, (t & 127) as bv8, (t & 255) as bv8, (t & 1023) as bv10, (t & 2047) as bv11)
  }

  /** The three-bit register fields name r0 to r7. */
  predicate LowRegisters(t: Thumb) { t.r0 < 8 && t.r3 < 8 && t.r6 < 8 && t.r8 < 8 }

  lemma ThumbFieldsAreLow(t: bv32)
    ensures LowRegisters(ThumbFieldsOf(t))
  {
  }

  // ---- Registers ---------------------------------------------------------

  /** Reading r15 gives the address of the current instruction plus two instructions. */
  function ReadPc(a: Core): u32 { Wrap(a.pc + 2 * Size(a.thumb)) }

  /** A register as an operand. */
  function Read(a: Core, i: bv4): u32
    requires |a.r| == 15
  {
    if i == 15 then ReadPc(a) else a.r[Index(i)]
  }

  function Index(i: bv4): (n: nat)
    requires i != 15
    ensures n < 15
  {
    i as nat
  }

  function AlignDown(x: u32, d: nat): u32
    requires d >= 1
  {
    ModBound(x, d);
    x - x % d
  }

  lemma ModBound(x: nat, d: nat)
    requires d >= 1
    ensures 0 <= x % d <= x
  {
    if x < d { DivUnique(x, d, 0, x); } else { DivBound(x, d); }
  }

  function Next(a: Core): Core { a.(pc := Wrap(a.pc + Size(a.thumb))) }

  function Set(a: Core, rd: bv4, x: u32): Core
    requires |a.r| == 15 && rd != 15
  {
    a.(r := a.r[Index(rd) := x])
  }

  // ---- Arithmetic --------------------------------------------------------

  datatype Sum = Sum(value: u32, carry: bool, overflow: bool)

  predicate FitsSigned(s: int) { -TWO31 <= s < TWO31 }

  /** x + y + carry: C is the carry out of the exact sum, V tells that the exact signed sum does not fit. */
  function AddWith(x: u32, y: u32, carry: bool): Sum {
    var exact := x + y + BitOf(carry);
    Sum(Wrap(exact), exact >= TWO32, !FitsSigned(Signed(x) + Signed(y) + BitOf(carry)))
  }

  /** x - y - NOT carry: C is the absence of a borrow. */
  function SubWith(x: u32, y: u32, carry: bool): Sum {
    var exact := x - y - BitOf(!carry);
    Sum(Wrap(exact), exact >= 0, !FitsSigned(Signed(x) - Signed(y) - BitOf(!carry)))
  }

  datatype Opcode = AND | EOR | SUB | RSB | ADD | ADC | SBC | RSC
                  | TST | TEQ | CMP | CMN | ORR | MOV | BIC | MVN

  function OpcodeOf(n: bv4): Opcode {
    match n
    case 0 => AND case 1 => EOR case 2 => SUB case 3 => RSB
    case 4 => ADD case 5 => ADC case 6 => SBC case 7 => RSC
    case 8 => TST case 9 => TEQ case 10 => CMP case 11 => CMN
    case 12 => ORR case 13 => MOV case 14 => BIC case _ => MVN
  }

  predicate IsTest(op: Opcode) { op == TST || op == TEQ || op == CMP || op == CMN }

  datatype Outcome = Outcome(value: u32, f: Flags)

  function Logical(x: u32, carry: bool, f: Flags): Outcome {
    Outcome(x, Flags(x >= TWO31, x == 0, carry, f.v))
  }

  function Arithmetic(s: Sum): Outcome {
    Outcome(s.value, Flags(s.value >= TWO31, s.value == 0, s.carry, s.overflow))
  }

  /** Result and flags of a data-processing operation on x and the shifter operand y (section A3.4). */
  function Compute(op: Opcode, x: u32, y: Shifted, f: Flags): Outcome {
    match op
    case AND => Logical(BitAnd(x, y.value), y.carry, f)
    case TST => Logical(BitAnd(x, y.value), y.carry, f)
    case EOR => Logical(BitXor(x, y.value), y.carry, f)
    case TEQ => Logical(BitXor(x, y.value), y.carry, f)
    case ORR => Logical(BitOr(x, y.value), y.carry, f)
    case MOV => Logical(y.value, y.carry, f)
    case BIC => Logical(BitAnd(x, BitNot(y.value)), y.carry, f)
    case MVN => Logical(BitNot(y.value), y.carry, f)
    case ADD => Arithmetic(AddWith(x, y.value, false))
    case CMN => Arithmetic(AddWith(x, y.value, false))
    case ADC => Arithmetic(AddWith(x, y.value, f.c))
    case SUB => Arithmetic(SubWith(x, y.value, true))
    case CMP => Arithmetic(SubWith(x, y.value, true))
    case SBC => Arithmetic(SubWith(x, y.value, f.c))
    case RSB => Arithmetic(SubWith(y.value, x, true))
    case RSC => Arithmetic(SubWith(y.value, x, f.c))
  }

  /** Condition codes (section A3.2). */
  predicate Passes(cond: bv4, f: Flags) {
    match cond
    case 0 => f.z
    case 1 => !f.z
    case 2 => f.c
    case 3 => !f.c
    case 4 => f.n
    case 5 => !f.n
    case 6 => f.v
    case 7 => !f.v
    case 8 => f.c && !f.z
    case 9 => !f.c || f.z
    case 10 => f.n == f.v
    case 11 => f.n != f.v
    case 12 => !f.z && f.n == f.v
    case 13 => f.z || f.n != f.v
    case _ => true
  }

  // ---- Branches ----------------------------------------------------------

  /** Branch with exchange: bit 0 selects the instruction set (section A4.1.10). */
  function Exchange(a: Core, target: u32): Option<Core> {
    if target % 2 == 1 then Some(Refreshed(a.(thumb := true, pc := target - 1)))
    else if target % 4 == 0 then Some(Refreshed(a.(thumb := false, pc := target)))
    else None
  }

  function Refreshed(a: Core): Core { a.(psr := StatusWord(a.f, a.thumb, a.other)) }

  /** The return address of a call: the next instruction, marked with the instruction set. */
  function ReturnAddress(a: Core): u32 {
    var next := Wrap(a.pc + Size(a.thumb));
    if a.thumb && next % 2 == 0 then next + 1 else next
  }

  // ---- ARM instructions --------------------------------------------------

  function ShiftOf(n: bv2): Shift { match n case 0 => LSL case 1 => LSR case 2 => ASR case _ => ROR }

  /** A register shifted by a constant (sections A5.1.5 to A5.1.13). */
  function ConstantShift(k: Shift, x: u32, carry: bool, amount: nat): Shifted {
    if amount > 0 || k == LSL then ShiftBy(k, x, carry, amount)
    else if k == ROR then RotateExtended(x, carry)
    else ShiftBy(k, x, carry, 32)
  }

  /** The shifter operand of a data-processing instruction (section A5.1). */
  function ShifterOperand(a: Core, w: Arm): Option<Shifted>
    requires |a.r| == 15
  {
    var k := ShiftOf(w.shift);
    if w.kind == 1 then Some(ShiftBy(ROR, w.imm8 as nat, a.f.c, 2 * (w.rs as nat)))
    else if w.bit4 == 0 then Some(ConstantShift(k, Read(a, w.rm), a.f.c, w.amount as nat))
    else if w.rm == 15 || w.rs == 15 || w.rn == 15 || w.rd == 15 then None
    else Some(ShiftBy(k, Read(a, w.rm), a.f.c, Read(a, w.rs) % 256))
  }

  /** The first operand. The PC is taken as a word address, which in ARM state it already is. */
  function FirstOperand(a: Core, rn: bv4): u32
    requires |a.r| == 15
  {
    if rn == 15 then AlignDown(ReadPc(a), 4) else Read(a, rn)
  }

  /** Data processing. Writing the PC branches; writing it together with the flags is not modelled. */
  function DataProcessing(a: Core, w: Arm): Option<Core>
    requires |a.r| == 15
  {
    var op, y := OpcodeOf(w.op), ShifterOperand(a, w);
    if y.None? || (w.rd == 15 && w.s == 1) || (IsTest(op) && w.s == 0) then None
    else
      var o := Compute(op, FirstOperand(a, w.rn), y.value, a.f);
      var b := if w.s == 1 then Next(a).(f := o.f) else Next(a);
      Some(if IsTest(op) then b
           else if w.rd == 15 then b.(pc := AlignDown(o.value, Size(a.thumb)))
           else Set(b, w.rd, o.value))
  }

  /** MUL and MLA (rd and rn trade places in the encoding): C and V are unaffected. */
  function Multiply(a: Core, w: Arm): Option<Core>
    requires |a.r| == 15
  {
    if w.op > 1 || w.shift != 0 || w.rn == 15 || w.rs == 15 || w.rm == 15 || (w.op == 1 && w.rd == 15) then None
    else
      var product := Read(a, w.rm) as int * Read(a, w.rs);
      var x := Wrap(if w.op == 1 then product + Read(a, w.rd) else product);
      var b := Set(Next(a), w.rn, x);
      Some(if w.s == 1 then b.(f := Flags(x >= TWO31, x == 0, a.f.c, a.f.v)) else b)
  }

  /** UMULL, UMLAL, SMULL and SMLAL: a 64-bit product, accumulated modulo 2^64 (rn is RdHi and rd is RdLo). */
  function MultiplyLong(a: Core, w: Arm): Option<Core>
    requires |a.r| == 15
  {
    if w.op < 4 || w.op > 7 || w.shift != 0 then None
    else if w.rn == 15 || w.rd == 15 || w.rs == 15 || w.rm == 15 || w.rn == w.rd then None
    else
      var hi, lo := Read(a, w.rn), Read(a, w.rd);
      var product := Exact(Read(a, w.rm), Read(a, w.rs), w.op & 2 != 0);
      var x := (if w.op & 1 != 0 then Joined(lo, hi) + product else product) % TWO64;
      Some(TwoWords(a, w.rd, w.rn, x, w.s == 1))
  }

  /** Writes a 64-bit result; N and Z are those of the whole. */
  function TwoWords(a: Core, lo: bv4, hi: bv4, x: int, s: bool): Core
    requires |a.r| == 15 && lo != 15 && hi != 15 && 0 <= x < TWO64
  {
    var b := Set(Set(Next(a), lo, x % TWO32), hi, x / TWO32);
    if s then b.(f := Flags(x >= TWO64 / 2, x == 0, a.f.c, a.f.v)) else b
  }

  /** BX and BLX to a register; only BX may name the PC. */
  function BranchRegister(a: Core, w: Arm): Option<Core>
    requires |a.r| == 15
  {
    var target := Read(a, w.rm);
    if w.op != 9 || w.bit4 == 0 || w.bit7 == 1 then None
    else if w.shift == 0 && w.ones == 0xFFF then Exchange(a, target)
    else if w.shift == 1 && w.rm != 15 then Exchange(Set(a, 14, ReturnAddress(a)), target)
    else None
  }

  /** B and BL: a signed 24-bit word offset; its sign and the link bit are part of `op`. */
  function Branch(a: Core, w: Arm): Core
    requires |a.r| == 15
  {
    var offset := 4 * (w.low23 as nat) - (if w.op & 4 != 0 then 0x200_0000 else 0);
    var b := if w.op & 8 != 0 then Set(a, 14, Wrap(a.pc + 4)) else a;
    b.(pc := Wrap(a.pc + 8 + offset))
  }

  /** What an ARM instruction does (section A3): data processing, the multiplications, B, BL, BX and BLX to a
      register. */
  function ArmStep(a: Core, w: Arm): Option<Core>
    requires |a.r| == 15
  {
    if w.cond == 15 then None
    else if !Passes(w.cond, a.f) then Some(Next(a))
    else if w.kind == 0 && w.bit4 == 1 && w.bit7 == 1 then (if w.op <= 3 then Multiply(a, w) else MultiplyLong(a, w))
    else if w.kind == 0 && w.op & 12 == 8 && w.s == 0 then BranchRegister(a, w)
    else if w.kind <= 1 then DataProcessing(a, w)
    else if w.kind == 5 && !a.thumb then Some(Branch(a, w))
    else None
  }

  // ---- Thumb instructions ------------------------------------------------

  /** Has b gone on to the next instruction in sequence? */
  predicate GoneOn(a: Core, b: Option<Core>) {
    b.Some? && |b.value.r| == 15 && b.value.pc == Next(a).pc && b.value.thumb == Next(a).thumb
  }

  /** Writes a result and all four flags. */
  function SetWithFlags(a: Core, rd: bv4, o: Outcome): (b: Option<Core>)
    requires |a.r| == 15 && rd != 15
    ensures GoneOn(a, b)
  {
    Some(Set(Next(a), rd, o.value).(f := o.f))
  }

  function SetFlags(a: Core, o: Outcome): (b: Option<Core>)
    ensures |a.r| == 15 ==> GoneOn(a, b)
  {
    Some(Next(a).(f := o.f))
  }

  function ShiftResult(a: Core, k: Shift, x: u32, n: nat): Outcome {
    var s := ShiftBy(k, x, a.f.c, n);
    Logical(s.value, s.carry, a.f)
  }

  /** The register shifts and the two-operand operations of format 4 (section A7.1). */
  function ThumbAlu(a: Core, op: bv4, rd: bv4, rm: bv4): Option<Core>
    requires |a.r| == 15 && rd != 15
  {
    var x, y, f := Read(a, rd), Read(a, rm), a.f;
    match op
    case 0 => SetWithFlags(a, rd, Logical(BitAnd(x, y), f.c, f))
    case 1 => SetWithFlags(a, rd, Logical(BitXor(x, y), f.c, f))
    case 2 => SetWithFlags(a, rd, ShiftResult(a, LSL, x, y % 256))
    case 3 => SetWithFlags(a, rd, ShiftResult(a, LSR, x, y % 256))
    case 4 => SetWithFlags(a, rd, ShiftResult(a, ASR, x, y % 256))
    case 5 => SetWithFlags(a, rd, Arithmetic(AddWith(x, y, f.c)))
    case 6 => SetWithFlags(a, rd, Arithmetic(SubWith(x, y, f.c)))
    case 7 => SetWithFlags(a, rd, ShiftResult(a, ROR, x, y % 256))
    case 8 => SetFlags(a, Logical(BitAnd(x, y), f.c, f))
    case 9 => SetWithFlags(a, rd, Arithmetic(SubWith(0, y, true)))
    case 10 => SetFlags(a, Arithmetic(SubWith(x, y, true)))
    case 11 => SetFlags(a, Arithmetic(AddWith(x, y, false)))
    case 12 => SetWithFlags(a, rd, Logical(BitOr(x, y), f.c, f))
    case 13 => SetWithFlags(a, rd, Logical(Wrap(x as int * y), f.c, f))
    case 14 => SetWithFlags(a, rd, Logical(BitAnd(x, BitNot(y)), f.c, f))
    case _ => SetWithFlags(a, rd, Logical(BitNot(y), f.c, f))
  }

  /** Operations that reach the high registers (format 5). */
  function ThumbHigh(a: Core, t: Thumb): Option<Core>
    requires |a.r| == 15
  {
    var x, y := Read(a, t.hd), Read(a, t.hm);
    match t.op2
    case 0 => Some(WriteHigh(a, t.hd, Wrap(x + y)))
    case 1 => if t.hd == 15 then None else SetFlags(a, Arithmetic(SubWith(x, y, true)))
    case 2 => Some(WriteHigh(a, t.hd, y))
    case _ =>
      if t.bit7 == 1 && t.hm == 15 then None else Exchange(if t.bit7 == 1 then Set(a, 14, ReturnAddress(a)) else a, y)
  }

  function WriteHigh(a: Core, rd: bv4, x: u32): Core
    requires |a.r| == 15
  {
    if rd == 15 then a.(pc := AlignDown(x, 2)) else Set(Next(a), rd, x)
  }

  /** A branch by a signed number of halfwords; `sign` is the weight of the sign bit, in bytes. */
  function Relative(a: Core, low: nat, back: bool, sign: nat): Core {
    a.(pc := Wrap(ReadPc(a) + 2 * low - if back then sign else 0))
  }

  /** The first half of a call puts the upper part of the signed offset, added to the PC, into r14. */
  function LinkHigh(a: Core, low: nat, back: bool): Core
    requires |a.r| == 15
  {
    Set(Next(a), 14, Wrap(ReadPc(a) + 0x1000 * low - if back then 0x40_0000 else 0))
  }

  /** The second half of BL branches, and leaves the return address in r14. */
  function LinkLow(a: Core, low: nat): Option<Core>
    requires |a.r| == 15
  {
    if a.r[14] % 2 == 1 then None else Some(Set(a, 14, ReturnAddress(a)).(pc := Wrap(a.r[14] + 2 * low)))
  }

  /** The second half of BLX branches to ARM code. */
  function LinkExchange(a: Core, low: nat): Option<Core>
    requires |a.r| == 15
  {
    if low % 2 == 1 then None
    else Some(Set(a, 14, ReturnAddress(a)).(pc := AlignDown(Wrap(a.r[14] + 2 * low), 4), thumb := false))
  }

  /** Branches (formats 16, 18 and 19): offsets are signed and count halfwords. */
  function ThumbBranch(a: Core, t: Thumb): Option<Core>
    requires |a.r| == 15
  {
    match t.op
    case 28 => Some(Relative(a, t.imm10 as nat, t.bit10 == 1, 0x800))
    case 29 => LinkExchange(a, t.imm11 as nat)
    case 30 => Some(LinkHigh(a, t.imm10 as nat, t.bit10 == 1))
    case 31 => LinkLow(a, t.imm11 as nat)
    case _ =>
      if t.op4 >= 14 then None
      else if !Passes(t.op4, a.f) then Some(Next(a))
      else Some(Relative(a, t.imm7 as nat, t.bit7 == 1, 0x100))
  }

  /** What a Thumb instruction does (section A7.1): formats 1 to 5, 12, 13, 16, 18 and 19. */
  function ThumbStep(a: Core, t: Thumb): Option<Core>
    requires |a.r| == 15 && LowRegisters(t)
  {
    var x, z, imm8 := Read(a, t.r3), Read(a, t.r8), t.imm8 as nat;
    var amount := t.amount as nat;
    var n := if amount == 0 then 32 else amount;
    match t.op
    case 0 => SetWithFlags(a, t.r0, ShiftResult(a, LSL, x, amount))
    case 1 => SetWithFlags(a, t.r0, ShiftResult(a, LSR, x, n))
    case 2 => SetWithFlags(a, t.r0, ShiftResult(a, ASR, x, n))
    case 3 =>
      var y := if t.bit10 == 1 then t.imm3 as nat else Read(a, t.r6);
      SetWithFlags(a, t.r0, Arithmetic(if t.bit9 == 0 then AddWith(x, y, false) else SubWith(x, y, true)))
    case 4 => SetWithFlags(a, t.r8, Logical(imm8, a.f.c, a.f))
    case 5 => SetFlags(a, Arithmetic(SubWith(z, imm8, true)))
    case 6 => SetWithFlags(a, t.r8, Arithmetic(AddWith(z, imm8, false)))
    case 7 => SetWithFlags(a, t.r8, Arithmetic(SubWith(z, imm8, true)))
    case 8 => if t.bit10 == 0 then ThumbAlu(a, t.alu, t.r0, t.r3) else ThumbHigh(a, t)
    case 20 => Some(Set(Next(a), t.r8, Wrap(AlignDown(ReadPc(a), 4) + 4 * imm8)))
    case 21 => Some(Set(Next(a), t.r8, Wrap(a.r[13] + 4 * imm8)))
    case 22 =>
      var offset := 4 * (t.imm7 as nat);
      if t.op4 != 0 then None
      else Some(Set(Next(a), 13, Wrap(if t.bit7 == 0 then a.r[13] + offset else a.r[13] - offset)))
    case op => if op >= 26 then ThumbBranch(a, t) else None
  }

  // ---- Instruction addresses stay aligned --------------------------------

  lemma Aligned(x: u32, thumb: bool)
    ensures AlignDown(x, Size(thumb)) % Size(thumb) == 0
    ensures x % Size(thumb) == 0 ==> Wrap(x + Size(thumb)) % Size(thumb) == 0
  {
    hide Wrap;
    Multiple(x, Size(thumb));
    if x % Size(thumb) == 0 { WrapMultiple(x, 1, Size(thumb)); }
  }

  lemma Multiple(x: u32, d: nat)
    requires d >= 1
    ensures AlignDown(x, d) % d == 0
  {
    DivUnique(x - x % d, d, x / d, 0);
  }

  lemma HalfwordAligned(x: int)
    requires x % 2 == 0
    ensures Wrap(x) % 2 == 0
  {
    WrapKeepsAlignment(x);
  }

  lemma NextIsWellFormed(a: Core)
    requires WellFormed(a)
    ensures WellFormed(Next(a))
  {
    hide Wrap;
    Aligned(a.pc, a.thumb);
  }

  lemma ExchangeIsWellFormed(a: Core, target: u32)
    requires |a.r| == 15
    ensures Exchange(a, target).Some? ==> WellFormed(Exchange(a, target).value)
  {
  }

  lemma InArmState(a: Core)
    requires |a.r| == 15 && !a.thumb
    ensures WellFormed(a) <==> a.pc % 4 == 0
  {
  }

  lemma BranchIsWellFormed(a: Core, w: Arm)
    requires WellFormed(a) && !a.thumb
    ensures WellFormed(Branch(a, w))
  {
    hide Wrap, Size;
    InArmState(a);
    InArmState(Branch(a, w));
    OffsetAligned(a.pc, w.low23 as nat, w.op & 4 != 0);
  }

  lemma OffsetAligned(pc: u32, low: int, back: bool)
    requires pc % 4 == 0
    ensures Wrap(pc + 8 + (4 * low - if back then 0x200_0000 else 0)) % 4 == 0
  {
    WrapMultiple(pc, 2 + (low - if back then 0x80_0000 else 0), 4);
  }

  lemma DataProcessingIsWellFormed(a: Core, w: Arm)
    requires WellFormed(a)
    ensures DataProcessing(a, w).Some? ==> WellFormed(DataProcessing(a, w).value)
  {
    hide Compute, ShifterOperand, AlignDown, OpcodeOf, IsTest, FirstOperand, Wrap, Size;
    NextIsWellFormed(a);
    if ShifterOperand(a, w).Some? {
      Aligned(Compute(OpcodeOf(w.op), FirstOperand(a, w.rn), ShifterOperand(a, w).value, a.f).value, a.thumb);
    }
  }

  lemma MultiplyIsWellFormed(a: Core, w: Arm)
    requires WellFormed(a)
    ensures Multiply(a, w).Some? ==> WellFormed(Multiply(a, w).value)
  {
    hide Wrap, Read, Next;
    NextIsWellFormed(a);
  }

  lemma MultiplyLongIsWellFormed(a: Core, w: Arm)
    requires WellFormed(a)
    ensures MultiplyLong(a, w).Some? ==> WellFormed(MultiplyLong(a, w).value)
  {
    hide Read, Next, Exact, Joined;
    NextIsWellFormed(a);
  }

  lemma ArmStepIsWellFormed(a: Core, w: Arm)
    requires WellFormed(a)
    ensures ArmStep(a, w).Some? ==> WellFormed(ArmStep(a, w).value)
  {
    hide DataProcessing, Multiply, MultiplyLong, Branch, Exchange, Passes, Next, Read, ReturnAddress;
    NextIsWellFormed(a);
    DataProcessingIsWellFormed(a, w);
    MultiplyIsWellFormed(a, w);
    MultiplyLongIsWellFormed(a, w);
    if !a.thumb { BranchIsWellFormed(a, w); }
    ExchangeIsWellFormed(a, Read(a, w.rm));
    ExchangeIsWellFormed(Set(a, 14, ReturnAddress(a)), Read(a, w.rm));
  }

  lemma RelativeIsWellFormed(a: Core, low: nat, back: bool, sign: nat)
    requires WellFormed(a) && a.thumb && sign % 2 == 0
    ensures WellFormed(Relative(a, low, back, sign))
  {
    hide Wrap;
    var distance: int := 2 * low - if back then sign as int else 0;
    HalfwordAligned(a.pc + 4);
    HalfwordAligned(ReadPc(a) + distance);
  }

  lemma LinkIsWellFormed(a: Core, low: nat, back: bool)
    requires WellFormed(a) && a.thumb
    ensures WellFormed(LinkHigh(a, low, back))
    ensures LinkLow(a, low).Some? ==> WellFormed(LinkLow(a, low).value)
    ensures LinkExchange(a, low).Some? ==> WellFormed(LinkExchange(a, low).value)
  {
    hide Wrap, AlignDown, ReturnAddress;
    NextIsWellFormed(a);
    Aligned(Wrap(a.r[14] + 2 * low), false);
    if a.r[14] % 2 == 0 { HalfwordAligned(a.r[14] + 2 * low); }
  }

  lemma ThumbBranchIsWellFormed(a: Core, t: Thumb)
    requires WellFormed(a) && a.thumb
    ensures ThumbBranch(a, t).Some? ==> WellFormed(ThumbBranch(a, t).value)
  {
    hide Passes, Next, Relative, LinkHigh, LinkLow, LinkExchange;
    NextIsWellFormed(a);
    RelativeIsWellFormed(a, t.imm10 as nat, t.bit10 == 1, 0x800);
    RelativeIsWellFormed(a, t.imm7 as nat, t.bit7 == 1, 0x100);
    LinkIsWellFormed(a, t.imm10 as nat, t.bit10 == 1);
    LinkIsWellFormed(a, t.imm11 as nat, false);
  }

  lemma WriteHighIsWellFormed(a: Core, rd: bv4, x: u32)
    requires WellFormed(a) && a.thumb
    ensures WellFormed(WriteHigh(a, rd, x))
  {
    hide AlignDown, Next;
    NextIsWellFormed(a);
    Aligned(x, true);
  }

  lemma ThumbHighIsWellFormed(a: Core, t: Thumb)
    requires WellFormed(a) && a.thumb
    ensures ThumbHigh(a, t).Some? ==> WellFormed(ThumbHigh(a, t).value)
  {
    hide Wrap, Read, SubWith, Arithmetic, ReturnAddress, Exchange, WriteHigh, Next;
    NextIsWellFormed(a);
    var x, y: u32 := Read(a, t.hd), Read(a, t.hm);
    WriteHighIsWellFormed(a, t.hd, Wrap(x + y));
    WriteHighIsWellFormed(a, t.hd, y);
    ExchangeIsWellFormed(if t.bit7 == 1 then Set(a, 14, ReturnAddress(a)) else a, y);
  }

  lemma GoneOnIsWellFormed(a: Core, b: Option<Core>)
    requires WellFormed(a) && GoneOn(a, b)
    ensures WellFormed(b.value)
  {
    hide Next;
    NextIsWellFormed(a);
  }

  lemma ThumbAluIsWellFormed(a: Core, op: bv4, rd: bv4, rm: bv4)
    requires WellFormed(a) && rd != 15
    ensures WellFormed(ThumbAlu(a, op, rd, rm).value)
  {
    hide Wrap, Read, AddWith, SubWith, BitAnd, BitOr, BitXor, BitNot, ShiftResult, Logical, Arithmetic, SetWithFlags,
      SetFlags, GoneOn;
    GoneOnIsWellFormed(a, ThumbAlu(a, op, rd, rm));
  }

  lemma ThumbStepIsWellFormed(a: Core, t: Thumb)
    requires WellFormed(a) && a.thumb && LowRegisters(t)
    ensures ThumbStep(a, t).Some? ==> WellFormed(ThumbStep(a, t).value)
  {
    hide Wrap, AlignDown, ReadPc, Read, AddWith, SubWith, ThumbBranch, ThumbAlu, ThumbHigh, ShiftResult, Logical,
      Arithmetic, Next, SetWithFlags, SetFlags, GoneOn;
    var b := ThumbStep(a, t);
    if t.op >= 26 {
      ThumbBranchIsWellFormed(a, t);
    } else if t.op == 8 {
      ThumbAluIsWellFormed(a, t.alu, t.r0, t.r3);
      ThumbHighIsWellFormed(a, t);
    } else if t.op <= 7 {
      GoneOnIsWellFormed(a, b);
    } else if b.Some? {
      SetKeepsPlace(a, t, b.value);
      GoneOnIsWellFormed(a, b);
    }
  }

  /** The address and stack pointer operations (formats 12 and 13). */
  lemma SetKeepsPlace(a: Core, t: Thumb, b: Core)
    requires |a.r| == 15 && LowRegisters(t) && 8 < t.op < 26 && ThumbStep(a, t) == Some(b)
    ensures GoneOn(a, Some(b))
  {
    hide Wrap, AlignDown, ReadPc, Read, AddWith, SubWith, ThumbBranch, ThumbAlu, ThumbHigh, ShiftResult, Logical,
      Arithmetic;
  }

  // ---- The status register -----------------------------------------------

  /** The other status bits stay, and so does the kept status register unless it becomes that of the new state. */
  predicate KeepsStatus(a: Core, b: Core) {
    b.other == a.other && (b.psr == a.psr || b.psr == StatusWord(b.f, b.thumb, b.other))
  }

  lemma ExchangeKeepsStatus(a: Core, target: u32)
    ensures Exchange(a, target).Some? ==> KeepsStatus(a, Exchange(a, target).value)
  {
    hide StatusWord;
  }

  lemma ArmStepKeepsStatus(a: Core, w: Arm)
    requires |a.r| == 15
    ensures ArmStep(a, w).Some? ==> KeepsStatus(a, ArmStep(a, w).value)
  {
    hide Compute, ShifterOperand, AlignDown, OpcodeOf, FirstOperand, Wrap, Size, StatusWord, Exchange, Passes, Exact,
      Joined, Read, ReturnAddress;
    ExchangeKeepsStatus(a, Read(a, w.rm));
    ExchangeKeepsStatus(Set(a, 14, ReturnAddress(a)), Read(a, w.rm));
  }

  lemma ThumbBranchKeepsStatus(a: Core, t: Thumb)
    requires |a.r| == 15
    ensures ThumbBranch(a, t).Some? ==> KeepsStatus(a, ThumbBranch(a, t).value)
  {
    hide AlignDown, Wrap, Size, StatusWord, Passes, ReturnAddress;
  }

  // ---- Programs ----------------------------------------------------------

  /** What memory holds at each address, as a halfword and as a word. */
  datatype Code = Code(half: u32 -> bv16, word: u32 -> bv32)

  function Fetch(code: Code, a: Core): bv32 {
    if a.thumb then code.half(a.pc) as bv32 else code.word(a.pc)
  }

  function Step(code: Code, a: Core): (b: Option<Core>)
    requires WellFormed(a)
    ensures b.Some? ==> WellFormed(b.value)
  {
    hide ArmStep, ThumbStep, FieldsOf, ThumbFieldsOf, LowRegisters;
    ThumbFieldsAreLow(Fetch(code, a));
    if a.thumb then
      ThumbStepIsWellFormed(a, ThumbFieldsOf(Fetch(code, a)));
      ThumbStep(a, ThumbFieldsOf(Fetch(code, a)))
    else
      ArmStepIsWellFormed(a, FieldsOf(Fetch(code, a)));
      ArmStep(a, FieldsOf(Fetch(code, a)))
  }
}
