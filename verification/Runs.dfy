/** Programs as the interpreter runs them against programs as the manual defines them. */
module Runs {
  import opened Words
  import opened Architecture
  import opened ThumbDecoder

  /** What executing the instruction b does to the programmer's view: Thumb instructions outside the branches have the
      effect of their translation. */
  function EmulatedInstruction(a: Core, b: bv32): (r: Option<Core>)
    requires WellFormed(a)
    ensures r.Some? ==> WellFormed(r.value)
  {
    hide ArmStep, ThumbBranch, FieldsOf, ThumbFieldsOf, Decode;
    if !a.thumb then
      ArmStepIsWellFormed(a, FieldsOf(b));
      ArmStep(a, FieldsOf(b))
    else if Rewritten(ThumbFieldsOf(b)) then
      ArmStepIsWellFormed(a, FieldsOf(Decode(b)));
      ArmStep(a, FieldsOf(Decode(b)))
    else if ThumbFieldsOf(b).op >= 26 then
      ThumbBranchIsWellFormed(a, ThumbFieldsOf(b));
      ThumbBranch(a, ThumbFieldsOf(b))
    else None
  }

  lemma EmulatedKeepsStatus(a: Core, b: bv32)
    requires WellFormed(a)
    ensures EmulatedInstruction(a, b).Some? ==> KeepsStatus(a, EmulatedInstruction(a, b).value)
  {
    hide ArmStep, ThumbBranch, FieldsOf, ThumbFieldsOf, Decode, KeepsStatus, Rewritten;
    if !a.thumb {
      ArmStepKeepsStatus(a, FieldsOf(b));
    } else if Rewritten(ThumbFieldsOf(b)) {
      ArmStepKeepsStatus(a, FieldsOf(Decode(b)));
    } else {
      ThumbBranchKeepsStatus(a, ThumbFieldsOf(b));
    }
  }

  /** One turn of the loop. */
  function Emulated(code: Code, a: Core): (r: Option<Core>)
    requires WellFormed(a)
    ensures r.Some? ==> WellFormed(r.value)
  {
    EmulatedInstruction(a, Fetch(code, a))
  }

  function EmulatedRun(code: Code, a: Core, n: nat): (r: Option<Core>)
    requires WellFormed(a)
    ensures r.Some? ==> WellFormed(r.value)
  {
    if n == 0 then Some(a)
    else match EmulatedRun(code, a, n - 1) case None => None case Some(b) => Emulated(code, b)
  }

  /** n instructions as the manual defines them. */
  function ManualRun(code: Code, a: Core, n: nat): (r: Option<Core>)
    requires WellFormed(a)
    ensures r.Some? ==> WellFormed(r.value)
  {
    if n == 0 then Some(a)
    else match ManualRun(code, a, n - 1) case None => None case Some(b) => Step(code, b)
  }

  // ---- The interpreter against the manual --------------------------------

  /** The instruction about to be executed is ADD PC, Rm at an address that is not a multiple of four. */
  predicate Deviates(code: Code, a: Core) { a.thumb && AddsToUnalignedPc(a, ThumbFieldsOf(Fetch(code, a))) }

  /** One instruction has the effect the manual gives it, with that one exception. */
  lemma EmulatedMeansStep(code: Code, a: Core)
    requires WellFormed(a) && Step(code, a).Some?
    ensures Emulated(code, a) == Step(code, a) <==> !Deviates(code, a)
  {
    hide ArmStep, ThumbStep, ThumbBranch, FieldsOf, ThumbFieldsOf, Decode, LowRegisters;
    var b := Fetch(code, a);
    ThumbFieldsAreLow(b);
    if a.thumb && Rewritten(ThumbFieldsOf(b)) {
      HalfwordFits(code.half(a.pc));
      TranslationPreservesMeaning(a, b);
    } else if a.thumb {
      OtherwiseBranch(a, ThumbFieldsOf(b));
    }
  }

  /** Such an instruction exists: ADD PC, r0 (0x4487) at address 2. */
  lemma SomeDeviate(code: Code, a: Core)
    requires code.half(2) == 0x4487 && |a.r| == 15 && a.pc == 2 && a.thumb
    ensures WellFormed(a) && Step(code, a).Some? && Deviates(code, a) && Emulated(code, a) != Step(code, a)
  {
    hide Exchange, Wrap, AlignDown, SubWith, Arithmetic, Emulated;
    var t := ThumbFieldsOf(0x4487);
    assert t.op == 8 && t.bit10 == 1 && t.op2 == 0 && t.hd == 15;
    assert ThumbStep(a, t) == ThumbHigh(a, t);
    EmulatedMeansStep(code, a);
  }

  /** A program and a core to which this applies. */
  lemma DeviationExists()
    ensures exists code, a :: WellFormed(a) && Step(code, a).Some? && Deviates(code, a)
  {
    hide Step, Deviates, Emulated;
    var code := Code(_ => 0x4487, _ => 0);
    SomeDeviate(code, Core(seq(15, _ => 0), 2, Flags(false, false, false, false), true, RESET_BITS, RESET_PSR));
  }

  lemma HalfwordFits(h: bv16)
    ensures h as bv32 < 0x10000
  {
  }

  lemma OtherwiseBranch(a: Core, t: Thumb)
    requires |a.r| == 15 && LowRegisters(t) && !Rewritten(t)
    ensures ThumbStep(a, t) == if t.op >= 26 then ThumbBranch(a, t) else None
  {
    hide ThumbBranch, ThumbAlu, ThumbHigh, Read, ReadPc, AddWith, SubWith, Wrap, AlignDown, ShiftResult;
  }

  /** A whole run follows the manual, instruction by instruction, exactly when it never executes a deviating one. */
  lemma RunFollowsManual(code: Code, a: Core, n: nat)
    requires WellFormed(a) && ManualRun(code, a, n).Some?
    ensures (forall k: nat | k <= n :: EmulatedRun(code, a, k) == ManualRun(code, a, k))
       <==> (forall k: nat | k < n :: ManualRun(code, a, k).Some? && !Deviates(code, ManualRun(code, a, k).value))
  {
    hide Step, Emulated, Deviates, WellFormed;
    if n > 0 {
      RunFollowsManual(code, a, n - 1);
      EmulatedMeansStep(code, ManualRun(code, a, n - 1).value);
    }
  }

  /** A run that completes has completed every shorter one. */
  lemma {:induction false} SomePrefix(code: Code, a: Core, k: nat, n: nat)
    requires WellFormed(a) && k <= n && EmulatedRun(code, a, n).Some?
    ensures EmulatedRun(code, a, k).Some?
  {
    hide Emulated, WellFormed;
    if k < n { SomePrefix(code, a, k, n - 1); }
  }

  // ---- Calls in Thumb state ----------------------------------------------

  /** The Thumb instruction at an address. */
  function HalfAt(code: Code, pc: u32): Thumb { ThumbFieldsOf(code.half(pc) as bv32) }

  /** The signed distance that the two halves of a call encode, in bytes. */
  function CallOffset(high: nat, back: bool, low: nat): int {
    0x1000 * high + 2 * low - if back then 0x40_0000 else 0
  }

  /** Running both halves of a BL has the effect of one branch with link: to the address four beyond the
      first half plus the signed offset, with r14 telling to return after the second half in Thumb state. */
  lemma CallIsOneBranch(code: Code, a: Core, t: Thumb, u: Thumb)
    requires WellFormed(a) && a.thumb
    requires t == HalfAt(code, a.pc) && t.op == 30
    requires u == HalfAt(code, Wrap(a.pc + 2)) && u.op == 31
    ensures var offset := CallOffset(t.imm10 as nat, t.bit10 == 1, u.imm11 as nat);
      EmulatedRun(code, a, 2) == Some(a.(r := a.r[14 := Wrap(a.pc + 4) + 1], pc := Wrap(a.pc + 4 + offset)))
  {
    hide HalfAt, Wrap, LinkHigh, LinkLow, CallOffset, Emulated;
    var high, back, low := t.imm10 as nat, t.bit10 == 1, u.imm11 as nat;
    HalvesJoin(a, high, back, low);
    var b := LinkHigh(a, high, back);
    assert EmulatedRun(code, a, 0) == Some(a);
    BranchHalf(code, a, t);
    assert EmulatedRun(code, a, 1) == Some(b);
    BranchHalf(code, b, u);
  }

  /** A half of a call is executed as a branch. */
  lemma BranchHalf(code: Code, a: Core, t: Thumb)
    requires WellFormed(a) && a.thumb && t == HalfAt(code, a.pc) && t.op >= 30
    ensures t.op == 30 ==> Emulated(code, a) == Some(LinkHigh(a, t.imm10 as nat, t.bit10 == 1))
    ensures t.op == 31 ==> Emulated(code, a) == LinkLow(a, t.imm11 as nat)
  {
    hide HalfAt, LinkHigh, LinkLow, LinkExchange, Relative, Passes, Next;
    BranchIsEmulated(code, a, t);
    if t.op == 30 {
      assert ThumbBranch(a, t) == Some(LinkHigh(a, t.imm10 as nat, t.bit10 == 1));
    } else {
      assert ThumbBranch(a, t) == LinkLow(a, t.imm11 as nat);
    }
  }

  lemma BranchIsEmulated(code: Code, a: Core, t: Thumb)
    requires WellFormed(a) && a.thumb && t == HalfAt(code, a.pc) && t.op >= 26
    ensures Emulated(code, a) == ThumbBranch(a, t)
  {
    hide ThumbFieldsOf, ThumbBranch, EmulatedInstruction, Rewritten;
    BranchInstruction(a, Fetch(code, a));
  }

  lemma BranchInstruction(a: Core, b: bv32)
    requires WellFormed(a) && a.thumb && ThumbFieldsOf(b).op >= 26
    ensures EmulatedInstruction(a, b) == ThumbBranch(a, ThumbFieldsOf(b))
  {
    hide ThumbFieldsOf, ThumbBranch, ArmStep, Decode, FieldsOf;
  }

  lemma HalvesJoin(a: Core, high: nat, back: bool, low: nat)
    requires WellFormed(a) && a.thumb
    ensures var b := LinkHigh(a, high, back);
      && WellFormed(b) && b.thumb && b.pc == Wrap(a.pc + 2)
      && LinkLow(b, low)
           == Some(a.(r := a.r[14 := Wrap(a.pc + 4) + 1], pc := Wrap(a.pc + 4 + CallOffset(high, back, low))))
  {
    hide Wrap;
    LinkIsWellFormed(a, high, back);
    JoinedTarget(a.pc, 0x1000 * high - if back then 0x40_0000 as int else 0, low);
    assert LinkHigh(a, high, back).r[14 := Wrap(a.pc + 4) + 1] == a.r[14 := Wrap(a.pc + 4) + 1];
  }

  lemma JoinedTarget(pc: u32, upper: int, low: nat)
    requires pc % 2 == 0 && upper % 2 == 0
    ensures var r14 := Wrap(Wrap(pc + 4) + upper);
      && r14 % 2 == 0 && Wrap(r14 + 2 * low) == Wrap(pc + 4 + (upper + 2 * low))
      && Wrap(Wrap(pc + 2) + 2) == Wrap(pc + 4) && Wrap(pc + 4) % 2 == 0
  {
    hide Wrap;
    HalfwordAligned(pc + 4);
    HalfwordAligned(Wrap(pc + 4) + upper);
    WrapAdd(2, pc + 2);
    WrapAdd(2 * low, Wrap(pc + 4) + upper);
    WrapAdd(upper + 2 * low, pc + 4);
  }
}
