/** The processor and its memory together: instructions are fetched from the segmented memory, and LDM and STM, also in
    the form of their Thumb counterparts, run between the others. */
module Machine {
  import opened Words
  import opened Architecture
  import opened ThumbDecoder
  import opened Runs
  import opened Memory
  import opened BlockTransfer
  import opened SingleTransfer
  import opened Tables
  import Cpu

  // ---- Block transfers as instructions -----------------------------------

  /** LDM or STM with the S bit clear. */
  predicate IsBlock(w: bv32) { (w >> 25) & 7 == 4 && (w >> 22) & 1 == 0 }

  /** The register list of an instruction. */
  function ListOf(w: bv32): nat { (w & 0xFFFF) as nat }

  lemma SameList(v: bv32, w: bv32)
    requires v & 0xFFFF == w & 0xFFFF
    ensures ListOf(v) == ListOf(w)
  {
  }

  function BlockOf(w: bv32): Block {
    Block((w >> 23) & 1 == 1, (w >> 24) & 1 == 1, (w >> 21) & 1 == 1, (w >> 20) & 1 == 1,
          ((w >> 16) & 15) as bv4, ListOf(w))
  }

  /** PUSH and POP (format 14). */
  predicate IsFormat14(t: bv32) {
    ((t >> 11) & 31 == 22 || (t >> 11) & 31 == 23) && t & 0x600 == 0x400
  }

  /** STMIA and LDMIA (format 15). */
  predicate IsFormat15(t: bv32) { (t >> 11) & 31 == 24 || (t >> 11) & 31 == 25 }

  /** Stores go below r13 and loads from it, with write-back; bit 8 adds r14 or the PC to the list. */
  function Format14(t: bv32): bv32 {
    var index := ((t & 0x800) >> 10) | ((t & 0x100) >> 8);
    var base := match index
      case 0 => 0xE92D0000
      case 1 => 0xE92D4000
      case 2 => 0xE8BD0000
      case _ => 0xE8BD8000;
    base | (t & 0xFF)
  }

  /** The base is not written back if it is in the list. */
  function Format15(t: bv32): bv32 {
    var loads := t & 0x800 != 0;
    var base :=
      if BaseInList(t) then (if loads then 0xE8900000 else 0xE8800000)
      else if loads then 0xE8B00000 else 0xE8A00000;
    base | ((t & 0x700) << 8) | (t & 0xFF)
  }

  predicate BaseInList(t: bv32) { t & (1 << ((t >> 8) & 7)) != 0 }

  /** The ARM instruction that stands for a Thumb block transfer. */
  function DecodeBlock(t: bv32): bv32 { if IsFormat14(t) then Format14(t) else Format15(t) }

  /** What section A7.1 means by a Thumb block transfer: PUSH may add r14 and POP the PC to the list. LDMIA leaves a
      base that it loads alone; STMIA always writes the base back, and a base in its list has to be the lowest
      register. */
  function ManualBlock(t: bv32): Option<Block> {
    var rn, list := ((t >> 8) & 7) as bv4, ListOf(t & 0xFF);
    if IsFormat14(t) then
      Some(if t & 0x800 == 0 then Push(13, ListOf((t & 0xFF) | (if t & 0x100 != 0 then 0x4000 else 0)))
           else Pop(13, ListOf((t & 0xFF) | (if t & 0x100 != 0 then 0x8000 else 0))))
    else if t & 0x800 != 0 then Some(Block(true, false, !BaseInList(t), true, rn, list))
    else if BaseInList(t) && t & ((1 << ((t >> 8) & 7)) - 1) != 0 then None
    else Some(Block(true, false, true, false, rn, list))
  }

  /** STMIA with its base in the list: the code does not write the base back. */
  predicate KeepsStoredBase(t: bv32) { IsFormat15(t) && t & 0x800 == 0 && BaseInList(t) }

  /** The words of the table, with a list of low registers. */
  lemma PushWords(t: bv32)
    ensures var w := 0xE92D0000 | (t & 0xFF); IsBlock(w) && w >> 28 == 14 && BlockOf(w) == Push(13, ListOf(t & 0xFF))
    ensures var w := 0xE92D4000 | (t & 0xFF);
      IsBlock(w) && w >> 28 == 14 && BlockOf(w) == Push(13, ListOf((t & 0xFF) | 0x4000))
  {
    hide ListOf;
    SameList(0xE92D0000 | (t & 0xFF), t & 0xFF);
    SameList(0xE92D4000 | (t & 0xFF), (t & 0xFF) | 0x4000);
  }

  lemma PopWords(t: bv32)
    ensures var w := 0xE8BD0000 | (t & 0xFF); IsBlock(w) && w >> 28 == 14 && BlockOf(w) == Pop(13, ListOf(t & 0xFF))
    ensures var w := 0xE8BD8000 | (t & 0xFF);
      IsBlock(w) && w >> 28 == 14 && BlockOf(w) == Pop(13, ListOf((t & 0xFF) | 0x8000))
  {
    hide ListOf;
    SameList(0xE8BD0000 | (t & 0xFF), t & 0xFF);
    SameList(0xE8BD8000 | (t & 0xFF), (t & 0xFF) | 0x8000);
  }

  lemma DecodesFormat14(t: bv32)
    requires t < 0x10000 && IsFormat14(t)
    ensures var w := Format14(t); IsBlock(w) && w >> 28 == 14 && BlockOf(w) == ManualBlock(t).value
  {
    hide ListOf, BlockOf, IsBlock, Format14, ManualBlock, IsFormat14;
    TableIndex14(t);
    ManualBlock14(t);
    PushWords(t);
    PopWords(t);
  }

  lemma ManualBlock14(t: bv32)
    requires IsFormat14(t)
    ensures var list := t & 0xFF;
      ManualBlock(t) == Some(
        if t & 0x800 == 0 then Push(13, if t & 0x100 != 0 then ListOf(list | 0x4000) else ListOf(list))
        else Pop(13, if t & 0x100 != 0 then ListOf(list | 0x8000) else ListOf(list)))
  {
    hide ListOf, IsFormat14;
    NoRegisterAdded(t);
  }

  lemma NoRegisterAdded(t: bv32)
    ensures (t & 0xFF) | 0 == t & 0xFF
  {
  }

  lemma TableIndex14(t: bv32)
    ensures var loads, more := t & 0x800 != 0, t & 0x100 != 0;
      Format14(t) == (t & 0xFF) |
        if loads then (if more then 0xE8BD8000 else 0xE8BD0000) else if more then 0xE92D4000 else 0xE92D0000
  {
  }

  lemma DecodesFormat15(t: bv32)
    requires t < 0x10000 && IsFormat15(t) && ManualBlock(t).Some?
    ensures var w := Format15(t); IsBlock(w) && w >> 28 == 14
    ensures BlockOf(Format15(t))
      == if KeepsStoredBase(t) then ManualBlock(t).value.(wback := false) else ManualBlock(t).value
  {
    hide ListOf;
    SameList(Format15(t), t & 0xFF);
  }

  // ---- One instruction ---------------------------------------------------

  /** The contents of memory, as instructions are fetched from it. */
  function CodeIn(f: Flat): Code {
    Code(pc => AsHalf(LoadedHalf(f, pc)), pc => AsWord(LoadedWord(f, pc)))
  }

  function AsHalf(x: nat): bv16
    requires x < 0x1_0000
  {
    x as bv16
  }

  function AsWord(x: u32): bv32 { x as bv32 }

  /** Is b a transfer to or from memory in the instruction set in use? */
  predicate Transfers(a: Core, b: bv32) {
    if a.thumb then IsFormat14(b) || IsFormat15(b) || IsThumbSingle(b)
    else (IsBlock(b) || SingleOf(b).Some?) && b >> 28 != 15
  }

  /** The ARM instruction that stands for a Thumb transfer. */
  function DecodeTransfer(t: bv32): bv32 { if IsThumbSingle(t) then DecodeSingle(t) else DecodeBlock(t) }

  function Paired(c: Option<Core>, f: Flat): Option<(Core, Flat)> {
    match c case None => None case Some(b) => Some((b, f))
  }

  /** What an ARM transfer does. */
  function TransferStep(a: Core, f: Flat, w: bv32): Option<(Core, Flat)>
    requires |a.r| == 15
  {
    if IsBlock(w) then BlockStep(a, f, BlockOf(w))
    else
      match SingleOf(w)
      case None => None
      case Some(s) => SingleStep(a, f, s)
  }

  /** An ARM transfer under its condition. */
  function Conditionally(a: Core, f: Flat, w: bv32): Option<(Core, Flat)>
    requires |a.r| == 15
  {
    if Passes((w >> 28) as bv4, a.f) then TransferStep(a, f, w) else Some((Next(a), f))
  }

  lemma ConditionallyIsWellFormed(a: Core, f: Flat, w: bv32)
    requires WellFormed(a)
    ensures Conditionally(a, f, w).Some? ==> WellFormed(Conditionally(a, f, w).value.0)
  {
    hide BlockStep, SingleStep, BlockOf, SingleOf, IsBlock, Passes, Next, WellFormed;
    BlockStepIsWellFormed(a, f, BlockOf(w));
    if SingleOf(w).Some? { SingleStepIsWellFormed(a, f, SingleOf(w).value); }
    NextIsWellFormed(a);
  }

  /** A block transfer that is to write back a base of its own list: the manual leaves the result of LDM UNPREDICTABLE
      (section A4.1.20), and that of STM unless the base is the lowest register of the list (section A4.1.97). */
  predicate UnpredictableBlock(b: Block) {
    b.wback && b.rn != 15 && Bit(b.list, Index(b.rn)) && (b.load || Count(b.list, Index(b.rn)) > 0)
  }

  predicate Unpredictable(a: Core, w: bv32)
    requires |a.r| == 15
  {
    if IsBlock(w) then UnpredictableBlock(BlockOf(w))
    else SingleOf(w).Some? && UnpredictableSingle(a, SingleOf(w).value)
  }

  /** The manual's meaning of an ARM transfer. */
  function ManualConditionally(a: Core, f: Flat, w: bv32): Option<(Core, Flat)>
    requires |a.r| == 15
  {
    if Passes((w >> 28) as bv4, a.f) && Unpredictable(a, w) then None else Conditionally(a, f, w)
  }

  /** The manual's meaning of a Thumb transfer. */
  function ManualTransfer(a: Core, f: Flat, t: bv32): Option<(Core, Flat)>
    requires |a.r| == 15
  {
    if IsThumbSingle(t) then SingleStep(a, f, ManualSingle(t))
    else
      match ManualBlock(t)
      case None => None
      case Some(block) => BlockStep(a, f, block)
  }

  lemma ManualTransferIsWellFormed(a: Core, f: Flat, t: bv32)
    requires WellFormed(a)
    ensures ManualTransfer(a, f, t).Some? ==> WellFormed(ManualTransfer(a, f, t).value.0)
  {
    hide BlockStep, SingleStep, ManualBlock, ManualSingle, IsThumbSingle, WellFormed;
    SingleStepIsWellFormed(a, f, ManualSingle(t));
    if ManualBlock(t).Some? { BlockStepIsWellFormed(a, f, ManualBlock(t).value); }
  }

  /** One turn of the interpreter's loop, on registers and memory. */
  function EmulatedTurn(a: Core, f: Flat): (r: Option<(Core, Flat)>)
    requires WellFormed(a)
    ensures r.Some? ==> WellFormed(r.value.0)
  {
    hide Emulated, CodeIn, Fetch, DecodeTransfer, Conditionally, Transfers;
    var b := Fetch(CodeIn(f), a);
    if a.pc + 4 >= TWO32 then None
    else if !Transfers(a, b) then Paired(Emulated(CodeIn(f), a), f)
    else
      var w := if a.thumb then DecodeTransfer(b) else b;
      ConditionallyIsWellFormed(a, f, w);
      Conditionally(a, f, w)
  }

  /** One instruction as the manual defines it. */
  function ManualTurn(a: Core, f: Flat): (r: Option<(Core, Flat)>)
    requires WellFormed(a)
    ensures r.Some? ==> WellFormed(r.value.0)
  {
    hide Step, CodeIn, Fetch, ManualTransfer, Conditionally, Transfers, Unpredictable;
    var b := Fetch(CodeIn(f), a);
    if a.pc + 4 >= TWO32 then None
    else if !Transfers(a, b) then Paired(Step(CodeIn(f), a), f)
    else if a.thumb then
      ManualTransferIsWellFormed(a, f, b);
      ManualTransfer(a, f, b)
    else
      ConditionallyIsWellFormed(a, f, b);
      ManualConditionally(a, f, b)
  }

  /** The two instructions on which the interpreter departs from the manual: ADD PC, Rm at an address that is not a
      multiple of four, and STMIA with its base in the list. */
  predicate Departs(a: Core, f: Flat) {
    var b := Fetch(CodeIn(f), a);
    a.thumb && (if Transfers(a, b) then KeepsStoredBase(b) else Deviates(CodeIn(f), a))
  }

  lemma TurnMeansManual(a: Core, f: Flat)
    requires WellFormed(a) && ManualTurn(a, f).Some?
    ensures EmulatedTurn(a, f) == ManualTurn(a, f) <==> !Departs(a, f)
  {
    hide Step, Emulated, CodeIn, Fetch, DecodeTransfer, ManualTransfer, IsBlock, IsFormat14, IsFormat15, IsThumbSingle,
      SingleOf, KeepsStoredBase, AddsToUnalignedPc, ThumbFieldsOf, Conditionally, Unpredictable;
    var b := Fetch(CodeIn(f), a);
    if !Transfers(a, b) {
      EmulatedMeansStep(CodeIn(f), a);
    } else if a.thumb {
      FetchedHalf(CodeIn(f), a);
      TransferMeansManual(a, f, b);
    }
  }

  lemma FetchedHalf(code: Code, a: Core)
    requires a.thumb
    ensures Fetch(code, a) < 0x10000
  {
    HalfwordFits(code.half(a.pc));
  }

  /** An unconditional instruction. */
  lemma Always(a: Core, f: Flat, w: bv32)
    requires |a.r| == 15 && w >> 28 == 14
    ensures Conditionally(a, f, w) == TransferStep(a, f, w)
  {
    hide TransferStep, Next;
  }

  lemma TransferMeansManual(a: Core, f: Flat, t: bv32)
    requires WellFormed(a) && t < 0x10000 && (IsFormat14(t) || IsFormat15(t) || IsThumbSingle(t))
    requires ManualTransfer(a, f, t).Some?
    ensures Conditionally(a, f, DecodeTransfer(t)) == ManualTransfer(a, f, t) <==> !KeepsStoredBase(t)
  {
    hide BlockStep, SingleStep, BlockOf, ManualBlock, ManualSingle, DecodeSingle, Format14, Format15, IsFormat14,
      IsFormat15, IsThumbSingle, KeepsStoredBase, Conditionally, IsBlock, SingleOf;
    OneFormat(t);
    if IsThumbSingle(t) {
      DecodesSingle(t);
      Always(a, f, DecodeSingle(t));
      SingleIsNoBlock(DecodeSingle(t));
    } else if IsFormat14(t) {
      DecodesFormat14(t);
      Always(a, f, Format14(t));
    } else {
      DecodesFormat15(t);
      Always(a, f, Format15(t));
      if KeepsStoredBase(t) { WriteBackMatters(a, f, t); }
    }
  }

  lemma SingleIsNoBlock(w: bv32)
    requires SingleOf(w).Some?
    ensures !IsBlock(w)
  {
  }

  lemma OneFormat(t: bv32)
    ensures IsFormat14(t) ==> !IsFormat15(t) && !IsThumbSingle(t)
    ensures IsFormat15(t) ==> !IsThumbSingle(t)
    ensures KeepsStoredBase(t) ==> IsFormat15(t)
  {
  }

  /** Without the write-back, STMIA has a different effect. */
  lemma WriteBackMatters(a: Core, f: Flat, t: bv32)
    requires |a.r| == 15 && KeepsStoredBase(t) && ManualBlock(t).Some? && BlockStep(a, f, ManualBlock(t).value).Some?
    ensures var b := ManualBlock(t).value; BlockStep(a, f, b.(wback := false)) != BlockStep(a, f, b)
  {
    hide ListOf, BlockStep, IsFormat14, BaseInList;
    OneFormat(t);
    BaseMoves(a, f, ManualBlock(t).value);
  }

  lemma BaseMoves(a: Core, f: Flat, b: Block)
    requires |a.r| == 15 && b.up && !b.load && b.wback && BlockStep(a, f, b).Some?
    ensures BlockStep(a, f, b.(wback := false)) != BlockStep(a, f, b)
  {
    hide StoreList, Next, Count, Wrap, Index;
    RegistersKept(a);
    var base := Read(a, b.rn);
    WordBits();
    CountPositive(b.list, 16);
    MovesUp(base, 4 * Count(b.list, 16));
    assert BlockStep(a, f, b).value.0.r[Index(b.rn)] == NewBase(base, b);
    assert BlockStep(a, f, b.(wback := false)).value.0 == Next(a);
  }

  lemma RegistersKept(a: Core)
    ensures Next(a).r == a.r
  {
  }

  lemma MovesUp(x: u32, n: int)
    requires 0 < n < TWO32
    ensures Wrap(x + n) != x
  {
    if x + n < TWO32 { WrapSmall(x + n); } else { WrapModulo(x + n - TWO32, 1); WrapSmall(x + n - TWO32); }
  }

  /** STMIA with its base in the list exists, too: STMIA r0!, {r0} (0xC001) at any address that holds it, with any
      word-aligned r0 below the end of the address space. */
  lemma SomeDepart(a: Core, f: Flat)
    requires WellFormed(a) && a.thumb && a.pc + 4 < TWO32 && LoadedHalf(f, a.pc) == 0xC001
    requires a.r[0] % 4 == 0 && a.r[0] + 4 < TWO32
    ensures ManualTurn(a, f).Some? && Departs(a, f) && EmulatedTurn(a, f) != ManualTurn(a, f)
  {
    hide BlockStep, LoadedHalf, ListOf, Emulated, Step;
    assert Fetch(CodeIn(f), a) == 0xC001;
    OneRegister();
    assert ManualBlock(0xC001) == Some(Block(true, false, true, false, 0, 1));
    StoresOne(a, f);
    TurnMeansManual(a, f);
  }

  lemma OneRegister()
    ensures ListOf(0xC001 & 0xFF) == 1
  {
  }

  lemma StoresOne(a: Core, f: Flat)
    requires |a.r| == 15 && a.r[0] % 4 == 0 && a.r[0] + 4 < TWO32
    ensures BlockStep(a, f, Block(true, false, true, false, 0, 1)).Some?
  {
    hide StoreList, Next;
    CountOne();
    WrapSmall(a.r[0]);
  }

  lemma CountOne()
    ensures Count(1, 16) == 1
  {
    hide Count;
    CountStep(1, 0);
    assert Bit(1, 0);
    NoMore(16);
  }

  lemma {:induction false} NoMore(n: nat)
    requires n >= 1
    ensures Count(1, n) == 1
  {
    if n > 1 {
      NoMore(n - 1);
      SmallerThanPower(n - 1);
    }
  }

  lemma SmallerThanPower(n: nat)
    requires n >= 1
    ensures !Bit(1, n)
  {
    DivUnique(1, Pow2(n), 0, 1);
  }

  /** Memory and a core to which this applies. */
  lemma DepartureExists()
    ensures exists a, f :: WellFormed(a) && ManualTurn(a, f).Some? && Departs(a, f)
  {
    hide Departs, ManualTurn, EmulatedTurn;
    var r := seq(15, i => if i == 0 then 4 else 0);
    var a := Core(r, 0, Flags(false, false, false, false), true, RESET_BITS, RESET_PSR);
    var f := Flat(map[0 := 1, 1 := 0xC0, 4 := 0, 5 := 0, 6 := 0, 7 := 0],
                  map[0 := 0, 1 := 0, 4 := 0, 5 := 0, 6 := 0, 7 := 0]);
    assert Slice(f, 0, 2) == [1, 0xC0];
    TwoLittle([1, 0xC0]);
    SomeDepart(a, f);
  }

  // ---- Runs --------------------------------------------------------------

  function EmulatedTurns(a: Core, f: Flat, n: nat): (r: Option<(Core, Flat)>)
    requires WellFormed(a)
    ensures r.Some? ==> WellFormed(r.value.0)
  {
    if n == 0 then Some((a, f))
    else match EmulatedTurns(a, f, n - 1) case None => None case Some(s) => EmulatedTurn(s.0, s.1)
  }

  function ManualTurns(a: Core, f: Flat, n: nat): (r: Option<(Core, Flat)>)
    requires WellFormed(a)
    ensures r.Some? ==> WellFormed(r.value.0)
  {
    if n == 0 then Some((a, f))
    else match ManualTurns(a, f, n - 1) case None => None case Some(s) => ManualTurn(s.0, s.1)
  }

  /** A run on registers and memory follows the manual, instruction by instruction, exactly when it never executes an
      instruction on which the interpreter departs from it. */
  lemma MachineFollowsManual(a: Core, f: Flat, n: nat)
    requires WellFormed(a) && ManualTurns(a, f, n).Some?
    ensures (forall k: nat | k <= n :: EmulatedTurns(a, f, k) == ManualTurns(a, f, k))
       <==> (forall k: nat | k < n ::
              ManualTurns(a, f, k).Some? && !Departs(ManualTurns(a, f, k).value.0, ManualTurns(a, f, k).value.1))
  {
    hide EmulatedTurn, ManualTurn, Departs, WellFormed;
    if n > 0 {
      MachineFollowsManual(a, f, n - 1);
      var s := ManualTurns(a, f, n - 1).value;
      TurnMeansManual(s.0, s.1);
    }
  }

  lemma {:induction false} SomeFewer(a: Core, f: Flat, k: nat, n: nat)
    requires WellFormed(a) && k <= n && EmulatedTurns(a, f, n).Some?
    ensures EmulatedTurns(a, f, k).Some?
  {
    hide EmulatedTurn, WellFormed;
    if k < n { SomeFewer(a, f, k, n - 1); }
  }

  lemma TurnKeepsStatus(a: Core, f: Flat)
    requires WellFormed(a)
    ensures EmulatedTurn(a, f).Some? ==> KeepsStatus(a, EmulatedTurn(a, f).value.0)
  {
    hide EmulatedInstruction, CodeIn, Fetch, DecodeTransfer, Transfers, BlockStep, SingleStep, BlockOf, SingleOf,
      IsBlock, Passes, StatusWord, Wrap, Size;
    var b := Fetch(CodeIn(f), a);
    EmulatedKeepsStatus(a, b);
    var w := if a.thumb then DecodeTransfer(b) else b;
    BlockStepKeepsStatus(a, f, BlockOf(w));
    if SingleOf(w).Some? { SingleStepKeepsStatus(a, f, SingleOf(w).value); }
  }

  /** Does the status register hold these other bits, and supervisor mode? */
  predicate HoldsBits(psr: u32, o: Others) {
    BitsIn(psr, o.e, o.a) == o.(ge := GeBits(o.ge)) && Field(psr, 1, 32) == MODE
  }

  /** Over any run the other status bits stay as they are. The kept status register is the one from before the run, or
      it holds those bits and supervisor mode, whatever mode the thread was created with. */
  lemma {:induction false} RunsKeepStatus(a: Core, f: Flat, n: nat)
    requires WellFormed(a) && EmulatedTurns(a, f, n).Some?
    ensures var b := EmulatedTurns(a, f, n).value.0;
      b.other == a.other && (b.psr == a.psr || HoldsBits(b.psr, a.other))
  {
    hide EmulatedTurn, WellFormed, StatusWord, BitsIn, GeBits, Field;
    if n > 0 {
      RunsKeepStatus(a, f, n - 1);
      var s := EmulatedTurns(a, f, n - 1).value;
      TurnKeepsStatus(s.0, s.1);
      var b := EmulatedTurns(a, f, n).value.0;
      StatusReadsBack(b.f, b.thumb, b.other);
    }
  }

  /** A run may be interrupted anywhere and taken up again. */
  lemma {:induction false} TurnsJoin(a: Core, f: Flat, m: nat, n: nat)
    requires WellFormed(a)
    ensures EmulatedTurns(a, f, m + n) ==
      match EmulatedTurns(a, f, m) case None => None case Some(s) => EmulatedTurns(s.0, s.1, n)
  {
    hide EmulatedTurn, WellFormed;
    if n > 0 {
      TurnsJoin(a, f, m, n - 1);
      assert m + n - 1 == m + (n - 1);
    }
  }

  // ---- The emulator ------------------------------------------------------

  class Emulator {
    const cpu: Cpu.State
    const mem: Segments
    const bitList: array<nat>

    constructor (cpu: Cpu.State, mem: Segments, bitList: array<nat>)
      ensures this.cpu == cpu && this.mem == mem && this.bitList == bitList
    {
      this.cpu, this.mem, this.bitList := cpu, mem, bitList;
    }

    ghost predicate Ready()
      reads this, cpu, cpu.Reg, cpu.ImmedTable, mem, mem.mappings, mem.blocks, bitList
    {
      cpu.Ready() && mem.Valid() && ListTable(bitList[..])
    }

    /** Fetches the instruction from memory. */
    method FetchInstruction() returns (instr: bv32)
      requires mem.Valid() && cpu.pc + 4 < TWO32 && cpu.Reg.Length == 16
      modifies mem.mappings
      ensures mem.Valid() && instr == Architecture.Fetch(CodeIn(mem.view), cpu.Current())
    {
      hide AsHalf, AsWord, Loaded, LoadedWord, LoadedHalf;
      ghost var f := mem.view;
      if cpu.TFlag {
        var half := mem.Read16(cpu.pc);
        assert half == LoadedHalf(f, cpu.pc);
        instr := AsHalf(half) as bv32;
      } else {
        var word := mem.Read32(cpu.pc);
        instr := AsWord(word);
      }
    }

    /** A transfer, if its condition holds. */
    method ExecuteTransfer(w: bv32)
      requires cpu.Executing() && mem.Valid() && ListTable(bitList[..])
      requires Conditionally(cpu.Current(), mem.view, w).Some?
      modifies cpu, cpu.Reg, mem`view, mem.mappings, mem.blocks
      ensures Ready() && Some((cpu.Between(), mem.view)) == Conditionally(old(cpu.Current()), old(mem.view), w)
    {
      hide Cpu.TableReady, Segments.Valid, Wrap, BlockStep, SingleStep, BlockOf, SingleOf, IsBlock, Passes, ListTable,
        Next;
      cpu.ConditionMeans((w >> 28) as bv4);
      if cpu.Condition((w >> 28) as bv4) {
        if IsBlock(w) {
          ExecuteBlock(cpu, mem, bitList, BlockOf(w));
        } else {
          ExecuteSingle(cpu, mem, SingleOf(w).value);
        }
      } else {
        cpu.NextInSequence();
      }
    }

    /** One turn of the interpreter's loop. */
    method Turn()
      requires Ready() && EmulatedTurn(cpu.Between(), mem.view).Some?
      modifies cpu, cpu.Reg, mem`view, mem.mappings, mem.blocks
      ensures Ready() && Some((cpu.Between(), mem.view)) == EmulatedTurn(old(cpu.Between()), old(mem.view))
    {
      hide Cpu.TableReady, Segments.Valid, Wrap, Architecture.Fetch, CodeIn, EmulatedInstruction, Conditionally,
        DecodeTransfer, Transfers, ListTable, Next;
      cpu.Advance();
      var instr := FetchInstruction();
      if TransfersNow(instr) {
        ExecuteTransfer(if cpu.TFlag then DecodeTransfer(instr) else instr);
      } else {
        cpu.Execute(instr);
      }
    }

    predicate TransfersNow(b: bv32)
      requires cpu.Reg.Length == 16
      reads cpu, cpu.Reg
      ensures TransfersNow(b) == Transfers(cpu.Current(), b)
    {
      if cpu.TFlag then IsFormat14(b) || IsFormat15(b) || IsThumbSingle(b)
      else (IsBlock(b) || SingleOf(b).Some?) && b >> 28 != 15
    }

    /** The loop runs n instructions on registers and memory. */
    method Run(n: nat)
      requires Ready() && EmulatedTurns(cpu.Between(), mem.view, n).Some?
      modifies cpu, cpu.Reg, mem`view, mem.mappings, mem.blocks
      ensures Ready() && Some((cpu.Between(), mem.view)) == EmulatedTurns(old(cpu.Between()), old(mem.view), n)
    {
      hide EmulatedTurn, Cpu.TableReady, Segments.Valid, WellFormed, ListTable;
      ghost var a, f := cpu.Between(), mem.view;
      var i := 0;
      while i != n
        invariant 0 <= i <= n && Ready()
        invariant EmulatedTurns(a, f, i) == Some((cpu.Between(), mem.view))
        decreases n - i
      {
        SomeFewer(a, f, i + 1, n);
        Turn();
        i := i + 1;
      }
    }
  }

  // ---- The start of a program --------------------------------------------

  /** arm11_Init: fills the tables and builds an emulator over a memory. */
  method Init(mem: Segments) returns (e: Emulator)
    requires mem.Valid()
    ensures e.Ready() && e.mem == mem && fresh(e) && fresh(e.cpu) && fresh(e.cpu.Reg) && fresh(e.cpu.ImmedTable)
    ensures fresh(e.bitList) && e.cpu.NextInstr == Cpu.RESUME && e.cpu.Between() == Cpu.InitialCore(0, 0)
    ensures e.cpu.Reg[..] == seq(16, _ => 0) && e.cpu.pc == 0
    ensures e.cpu.Psr() == Flags(false, false, false, false) && !e.cpu.TFlag
    ensures e.cpu.Bits() == RESET_BITS && e.cpu.Cpsr == RESET_PSR
  {
    hide Cpu.TableReady, Segments.Valid, ListTable;
    var table, bitList := InitTables();
    var cpu := new Cpu.State(table);
    e := new Emulator(cpu, mem, bitList);
  }

  /** ARMul_EmulateInit */
  method InitTables() returns (table: array<u32>, bitList: array<nat>)
    ensures fresh(table) && fresh(bitList) && Cpu.TableReady(table) && ListTable(bitList[..])
  {
    hide Cpu.TableReady;
    table := new u32[4096];
    InitImmediates(table);
    bitList := new nat[256];
    InitBitList(bitList);
  }

  /** arm11_Init and arm11_SetPCSP: an emulator that is ready to run a program from its first instruction on. */
  method Boot(mem: Segments, pc: u32, sp: u32) returns (e: Emulator)
    requires mem.Valid() && pc % 4 == 0
    ensures e.Ready() && e.mem == mem && fresh(e) && fresh(e.cpu) && fresh(e.cpu.Reg)
    ensures e.cpu.Between() == Cpu.InitialCore(pc, sp)
  {
    hide Cpu.TableReady, Segments.Valid, ListTable;
    e := Init(mem);
    e.cpu.SetPcSp(pc, sp);
  }

  /** A whole program run, from the initialization on: n instructions from its first one, on zeroed registers. */
  method RunProgram(mem: Segments, pc: u32, sp: u32, n: nat) returns (e: Emulator)
    requires mem.Valid() && pc % 4 == 0 && EmulatedTurns(Cpu.InitialCore(pc, sp), mem.view, n).Some?
    modifies mem`view, mem.mappings, mem.blocks
    ensures e.Ready() && e.mem == mem
    ensures Some((e.cpu.Between(), mem.view)) == EmulatedTurns(Cpu.InitialCore(pc, sp), old(mem.view), n)
  {
    hide Cpu.TableReady, Segments.Valid, ListTable, EmulatedTurns;
    e := Boot(mem, pc, sp);
    e.Run(n);
  }

  // ---- A program ---------------------------------------------------------

  /** Is the word at an address this unconditional block transfer? */
  predicate HoldsBlock(f: Flat, pc: u32, b: Block) {
    var w := AsWord(LoadedWord(f, pc));
    IsBlock(w) && w >> 28 == 14 && BlockOf(w) == b
  }

  lemma RunsBlock(a: Core, f: Flat, b: Block)
    requires WellFormed(a) && !a.thumb && a.pc + 4 < TWO32 && HoldsBlock(f, a.pc, b)
    ensures EmulatedTurn(a, f) == BlockStep(a, f, b)
  {
    hide BlockStep, BlockOf, IsBlock, AsWord, LoadedWord;
  }

  /** The program STMDB rb!, list; LDMIA rb!, list leaves every register but the PC as it was, if the block it uses does
      not overwrite its second instruction. */
  lemma PushPopProgram(a: Core, f: Flat, rb: bv4, list: nat)
    requires WellFormed(a) && !a.thumb && a.pc + 8 < TWO32 && Pushable(a, rb, list)
    requires HoldsBlock(f, a.pc, Push(rb, list)) && HoldsBlock(f, a.pc + 4, Pop(rb, list))
    requires var base := a.r[Index(rb)]; var start := base - 4 * Count(list, 16);
      HeldBlock(f, start, Count(list, 16)) && (a.pc + 8 <= start || base <= a.pc + 4)
    ensures var s := EmulatedTurns(a, f, 2);
      && s.Some? && s.value.0 == a.(pc := a.pc + 8)
      && SameOutside(f, s.value.1, a.r[Index(rb)] - 4 * Count(list, 16), a.r[Index(rb)])
  {
    hide BlockStep, HoldsBlock, EmulatedTurn, HeldBlock, SameOutside, StoreList, Index, Wrap, Count, Bit, Next,
      WellFormedList;
    PushMeans(a, f, rb, list);
    PopUndoesPush(a, f, rb, list);
    TwoOn(a);
    var (a', f') := BlockStep(a, f, Push(rb, list)).value;
    RunsBlock(a, f, Push(rb, list));
    SameInstruction(f, f', a.r[Index(rb)] - 4 * Count(list, 16), a.r[Index(rb)], a.pc + 4, Pop(rb, list));
    RunsBlock(a', f', Pop(rb, list));
    assert EmulatedTurns(a, f, 0) == Some((a, f));
    assert EmulatedTurns(a, f, 1) == Some((a', f'));
  }

  lemma TwoOn(a: Core)
    requires WellFormed(a) && !a.thumb && a.pc + 8 < TWO32
    ensures Next(a) == a.(pc := a.pc + 4) && Next(Next(a)) == a.(pc := a.pc + 8) && WellFormed(Next(a))
  {
    NextIsWellFormed(a);
    WrapSmall(a.pc + 4);
    WrapSmall(a.pc + 8);
  }

  lemma SameInstruction(f: Flat, g: Flat, lo: int, hi: int, pc: u32, b: Block)
    requires SameOutside(f, g, lo, hi) && (pc + 4 <= lo || hi <= pc) && HoldsBlock(f, pc, b)
    ensures HoldsBlock(g, pc, b)
  {
    hide SameOutside, BlockOf, IsBlock, AsWord, LittleWord;
    SameHolds(f, g, lo, hi, pc, 4);
  }
}
