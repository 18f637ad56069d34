/** LDR and STR of words, bytes and halfwords (src/arm11/armemu.c), in ARM state and in the form of their Thumb
    counterparts (src/arm11/thumbemu.c), over the segmented memory. */
module SingleTransfer {
  import opened Words
  import opened Shifter
  import opened Architecture
  import opened Memory
  import Cpu

  // ---- What a transfer means (sections A5.2 and A5.3 of ARM DDI 0100I) ----

  datatype Width = FullWord | UnsignedByte | UnsignedHalf | SignedByte | SignedHalf

  /** A constant, or a register shifted by a constant. */
  datatype Offset = Constant(n: bv12) | Scaled(rm: bv4, shift: bv2, amount: bv5)

  /** The fields of LDR and STR: direction, pre- or post-indexing, write-back, base and data register, offset. */
  datatype Single = Single(load: bool, width: Width, up: bool, pre: bool, wback: bool, rn: bv4, rd: bv4, offset: Offset)

  /** The number of bytes. */
  function Span(w: Width): (n: nat)
    ensures 1 <= n <= 4
  {
    match w
    case FullWord => 4
    case UnsignedByte => 1
    case SignedByte => 1
    case UnsignedHalf => 2
    case SignedHalf => 2
  }

  function OffsetOf(a: Core, o: Offset): u32
    requires |a.r| == 15
  {
    match o
    case Constant(n) => n as nat
    case Scaled(rm, shift, amount) => ConstantShift(ShiftOf(shift), Read(a, rm), a.f.c, amount as nat).value
  }

  function Target(a: Core, s: Single): u32
    requires |a.r| == 15
  {
    var base, offset := FirstOperand(a, s.rn), OffsetOf(a, s.offset);
    Wrap(if s.up then base + offset else base - offset)
  }

  /** The address of the transfer. */
  function Address(a: Core, s: Single): u32
    requires |a.r| == 15
  {
    if s.pre then Target(a, s) else FirstOperand(a, s.rn)
  }

  /** Post-indexing always writes the base back. */
  predicate WritesBase(s: Single) { !s.pre || s.wback }

  /** The value that a load of this width makes of n bytes: signed ones are extended. */
  function Extended(w: Width, x: nat): u32 {
    Wrap(match w
         case SignedByte => if x >= 0x80 then x - 0x100 else x
         case SignedHalf => if x >= 0x8000 then x - 0x1_0000 else x
         case _ => x)
  }

  /** Puts a loaded value into its register; a word that is loaded into the PC branches. */
  function PutLoaded(b: Core, s: Single, x: u32): Option<Core>
    requires |b.r| == 15
  {
    if s.rd != 15 then Some(Set(b, s.rd, x))
    else if s.width == FullWord then Exchange(b, x)
    else Some(b.(pc := AlignDown(x, Size(b.thumb))))
  }

  /** The effect of LDR or STR on the registers and the memory. */
  function SingleStep(a: Core, f: Flat, s: Single): Option<(Core, Flat)>
    requires |a.r| == 15
  {
    var at, n := Address(a, s), Span(s.width);
    if (WritesBase(s) && s.rn == 15) || at + n >= TWO32 then None
    else
      var b := if WritesBase(s) then Set(Next(a), s.rn, Target(a, s)) else Next(a);
      if s.load then
        match PutLoaded(b, s, Extended(s.width, Loaded(f, at, n))) {
          case None => None
          case Some(c) => Some((c, f))
        }
      else Some((b, Stored(f, at, Bytes(Read(a, s.rd), n))))
  }

  /** What the manual leaves UNPREDICTABLE: write-back of a base that is also the data or the offset register, the PC
      as an offset, the PC as the data of a byte or halfword, and loading it from an address that is not word-aligned.
      Post-indexing with the write-back bit set makes LDRT and STRT, which do not take the PC as data, and has no
      meaning for halfwords and signed bytes. */
  predicate UnpredictableSingle(a: Core, s: Single)
    requires |a.r| == 15
  {
    || (WritesBase(s) && (s.rn == s.rd || (s.offset.Scaled? && s.offset.rm == s.rn)))
    || (s.offset.Scaled? && s.offset.rm == 15)
    || (s.rd == 15 && (s.width != FullWord || (s.load && Address(a, s) % 4 != 0)))
    || (!s.pre && s.wback && (s.rd == 15 || (s.width != FullWord && s.width != UnsignedByte)))
  }

  lemma SingleStepIsWellFormed(a: Core, f: Flat, s: Single)
    requires WellFormed(a)
    ensures SingleStep(a, f, s).Some? ==> WellFormed(SingleStep(a, f, s).value.0)
  {
    hide Wrap, Next, Exchange, Address, Target, Stored, Loaded, Extended, Size, AlignDown;
    NextIsWellFormed(a);
    if !(WritesBase(s) && s.rn == 15) {
      var b := if WritesBase(s) then Set(Next(a), s.rn, Target(a, s)) else Next(a);
      var x := Extended(s.width, Loaded(f, Address(a, s), Span(s.width)));
      ExchangeIsWellFormed(b, x);
      Aligned(x, b.thumb);
    }
  }

  lemma SingleStepKeepsStatus(a: Core, f: Flat, s: Single)
    requires |a.r| == 15
    ensures SingleStep(a, f, s).Some? ==> KeepsStatus(a, SingleStep(a, f, s).value.0)
  {
    hide StatusWord, Exchange, Address, Target, Stored, Loaded, Extended, Size, AlignDown, Wrap;
    if !(WritesBase(s) && s.rn == 15) {
      var b := if WritesBase(s) then Set(Next(a), s.rn, Target(a, s)) else Next(a);
      ExchangeKeepsStatus(b, Extended(s.width, Loaded(f, Address(a, s), Span(s.width))));
    }
  }

  /** What a store has written, a load of as many bytes with the same base and offset reads back: the low bytes of the
      stored register, extended as the load says. */
  lemma StoreThenLoad(a: Core, f: Flat, s: Single, w: Width, rd: bv4)
    requires WellFormed(a) && !s.load && !WritesBase(s) && rd != 15 && Span(w) == Span(s.width)
    requires s.rn != 15 && (s.offset.Scaled? ==> s.offset.rm != 15)
    requires SingleStep(a, f, s).Some? && Holds(f, Address(a, s), Span(w))
    ensures var (b, g) := SingleStep(a, f, s).value;
      SingleStep(b, g, s.(load := true, width := w, rd := rd))
        == Some((Set(Next(b), rd, Extended(w, Read(a, s.rd) % Pow2(8 * Span(w)))), g))
  {
    hide Wrap, ConstantShift, Stored, Loaded, Bytes, Holds, Extended, Pow2, AlignDown, Size;
    var n := Span(w);
    ReadBack(f, Address(a, s), Read(a, s.rd), n);
    SamePlace(a, Next(a), s, s.(load := true, width := w, rd := rd));
  }

  /** The address depends on the registers and the flags only, if the PC is not involved. */
  lemma SamePlace(a: Core, b: Core, s: Single, l: Single)
    requires |a.r| == 15 && b == a.(pc := b.pc) && s.rn != 15 && (s.offset.Scaled? ==> s.offset.rm != 15)
    requires l == s.(load := l.load, width := l.width, rd := l.rd)
    ensures Address(b, l) == Address(a, s)
  {
    hide Wrap, ConstantShift;
  }

  // ---- The ARM encodings -------------------------------------------------

  predicate Set1(w: bv32, i: bv32) { w & i != 0 }

  function RegisterAt(w: bv32, i: nat): bv4
    requires i < 32
  {
    ((w >> i) & 15) as bv4
  }

  /** The offset field: twelve bits for words and bytes, two groups of four for halfwords, or a register. */
  function OffsetField(w: bv32): Option<Offset> {
    var kind, half := (w >> 25) & 7, w & 0x60;
    if kind == 2 then Some(Constant((w & 0xFFF) as bv12))
    else if kind == 3 && !Set1(w, 0x10) then
      Some(Scaled(RegisterAt(w, 0), ((w >> 5) & 3) as bv2, ((w >> 7) & 31) as bv5))
    else if kind == 0 && w & 0x90 == 0x90 && half != 0 && (Set1(w, 0x10_0000) || half == 0x20) then
      if Set1(w, 0x40_0000) then Some(Constant((((w >> 4) & 0xF0) | (w & 15)) as bv12))
      else if w & 0xF00 == 0 then Some(Scaled(RegisterAt(w, 0), 0, 0))
      else None
    else None
  }

  function WidthField(w: bv32): Width {
    var half := w & 0x60;
    if (w >> 25) & 7 != 0 then (if Set1(w, 0x40_0000) then UnsignedByte else FullWord)
    else if half == 0x40 then SignedByte else if half == 0x60 then SignedHalf else UnsignedHalf
  }

  /** LDR, STR, LDRB and STRB, and LDRH, STRH, LDRSB and LDRSH. */
  function SingleOf(w: bv32): Option<Single> {
    match OffsetField(w)
    case None => None
    case Some(o) => Some(Single(Set1(w, 0x10_0000), WidthField(w), Set1(w, 0x80_0000), Set1(w, 0x100_0000),
                                Set1(w, 0x20_0000), RegisterAt(w, 16), RegisterAt(w, 12), o))
  }

  // ---- The Thumb counterparts --------------------------------------------

  /** Formats 6 to 11. */
  predicate IsThumbSingle(t: bv32) { 9 <= (t >> 11) & 31 <= 19 }

  function DataAndBase(t: bv32): bv32 { ((t & 0x0007) << 12) | ((t & 0x0038) << 13) }

  function Format6(t: bv32): bv32 { 0xE59F0000 | ((t & 0x0700) << 4) | ((t & 0x00FF) << 2) }

  function Format7(t: bv32): bv32 {
    var base := match (t & 0x0C00) >> 10
      case 0 => 0xE7800000
      case 1 => 0xE7C00000
      case 2 => 0xE7900000
      case _ => 0xE7D00000;
    base | DataAndBase(t) | ((t & 0x01C0) >> 6)
  }

  function Format8(t: bv32): bv32 {
    var base := match (t & 0x0C00) >> 10
      case 0 => 0xE18000B0
      case 1 => 0xE19000D0
      case 2 => 0xE19000B0
      case _ => 0xE19000F0;
    base | DataAndBase(t) | ((t & 0x01C0) >> 6)
  }

  /** The offset counts words or bytes. */
  function Format9(t: bv32): bv32 {
    var base := match (t & 0x1800) >> 11
      case 0 => 0xE5800000
      case 1 => 0xE5900000
      case 2 => 0xE5C00000
      case _ => 0xE5D00000;
    base | DataAndBase(t) | (if t & 0x1000 != 0 then (t & 0x07C0) >> 6 else (t & 0x07C0) >> 4)
  }

  function Format10(t: bv32): bv32 {
    (if t & 0x800 != 0 then 0xE1D000B0 else 0xE1C000B0) | DataAndBase(t) | ((t & 0x01C0) >> 5) | ((t & 0x0600) >> 1)
  }

  function Format11(t: bv32): bv32 {
    (if t & 0x800 != 0 then 0xE59D0000 else 0xE58D0000) | ((t & 0x0700) << 4) | ((t & 0x00FF) << 2)
  }

  /** The ARM instruction that stands for a Thumb transfer. */
  function DecodeSingle(t: bv32): bv32 {
    var op := (t >> 11) & 31;
    if op == 9 then Format6(t)
    else if op <= 11 then (if t & 0x200 == 0 then Format7(t) else Format8(t))
    else if op <= 15 then Format9(t)
    else if op <= 17 then Format10(t)
    else Format11(t)
  }

  function Low(t: bv32, i: nat): bv4
    requires i < 32
  {
    ((t >> i) & 7) as bv4
  }

  /** LDR and STR without write-back, with an offset upwards. */
  function Plain(load: bool, width: Width, rn: bv4, rd: bv4, offset: Offset): Single {
    Single(load, width, true, true, false, rn, rd, offset)
  }

  /** What section A7.1 means by a Thumb transfer: in format 8 bits 11 and 10 tell STRH, LDRSB, LDRH and LDRSH apart;
      the immediate offsets of formats 6, 9, 10 and 11 are counted in units of the width. */
  function ManualSingle(t: bv32): Single {
    var op := (t >> 11) & 31;
    var rd, rb, imm5 := Low(t, 0), Low(t, 3), (t >> 6) & 31;
    var h, l := t & 0x800 != 0, t & 0x400 != 0;
    if op == 9 then Plain(true, FullWord, 15, Low(t, 8), Constant(((t & 0xFF) << 2) as bv12))
    else if op <= 11 && t & 0x200 == 0 then
      Plain(h, if l then UnsignedByte else FullWord, rb, rd, Scaled(Low(t, 6), 0, 0))
    else if op <= 11 then
      Plain(h || l, if !l then UnsignedHalf else if h then SignedHalf else SignedByte, rb, rd, Scaled(Low(t, 6), 0, 0))
    else if op <= 15 then Plain(h, if op <= 13 then FullWord else UnsignedByte, rb, rd, Constant(Offset9(t) as bv12))
    else if op <= 17 then Plain(h, UnsignedHalf, rb, rd, Constant((imm5 << 1) as bv12))
    else Plain(h, FullWord, 13, Low(t, 8), Constant(((t & 0xFF) << 2) as bv12))
  }

  /** Bits 4 to 7 of the halfword transfer for format 8. */
  function HalfOf(t: bv32): bv32 { if t & 0x400 == 0 then 0xB0 else if t & 0x800 == 0 then 0xD0 else 0xF0 }

  function Offset9(t: bv32): bv32 { if (t >> 11) & 31 <= 13 then ((t >> 6) & 31) << 2 else (t >> 6) & 31 }

  /** The translation keeps every field, and is unconditional. */
  lemma DecodesSingle(t: bv32)
    requires t < 0x10000 && IsThumbSingle(t)
    ensures SingleOf(DecodeSingle(t)) == Some(ManualSingle(t)) && DecodeSingle(t) >> 28 == 14
  {
    var op := (t >> 11) & 31;
    if op == 9 {
      Decodes6(t);
    } else if op <= 11 {
      if t & 0x200 == 0 { Decodes7(t); } else { Decodes8(t); }
    } else if op <= 15 {
      Decodes9(t);
    } else if op <= 17 {
      Decodes10(t);
    } else {
      Decodes11(t);
    }
  }

  /** The twelve-bit offset of words and bytes. */
  lemma WordOffset(w: bv32, n: bv32)
    requires (w >> 25) & 7 == 2 && w & 0xFFF == n
    ensures n <= 0xFFF && OffsetField(w) == Some(Constant(n as bv12))
    ensures WidthField(w) == if Set1(w, 0x40_0000) then UnsignedByte else FullWord
  {
  }

  /** A plain register offset of words and bytes. */
  lemma WordRegister(w: bv32)
    requires (w >> 25) & 7 == 3 && w & 0xFF0 == 0
    ensures OffsetField(w) == Some(Scaled(RegisterAt(w, 0), 0, 0))
    ensures WidthField(w) == if Set1(w, 0x40_0000) then UnsignedByte else FullWord
  {
    hide RegisterAt;
    NoShift(w);
  }

  lemma NoShift(w: bv32)
    requires w & 0xFF0 == 0
    ensures (w >> 5) & 3 == 0 && (w >> 7) & 31 == 0 && !Set1(w, 0x10)
  {
  }

  /** The split offset of halfwords. */
  lemma HalfOffset(w: bv32, n: bv32)
    requires (w >> 25) & 7 == 0 && w & 0xF0 == 0xB0 && Set1(w, 0x40_0000) && ((w >> 4) & 0xF0) | (w & 15) == n
    ensures n <= 0xFFF && OffsetField(w) == Some(Constant(n as bv12)) && WidthField(w) == UnsignedHalf
  {
    hide Set1;
    HalfBits(w);
  }

  lemma HalfBits(w: bv32)
    ensures w & 0xF0 == 0xB0 ==> w & 0x90 == 0x90 && w & 0x60 == 0x20
    ensures w & 0xF0 == 0xD0 ==> w & 0x90 == 0x90 && w & 0x60 == 0x40
    ensures w & 0xF0 == 0xF0 ==> w & 0x90 == 0x90 && w & 0x60 == 0x60
    ensures ((w >> 4) & 0xF0) | (w & 15) <= 0xFFF
  {
  }

  /** A register offset of halfwords and signed bytes. */
  lemma HalfRegister(w: bv32, half: bv32)
    requires (w >> 25) & 7 == 0 && !Set1(w, 0x40_0000) && w & 0xF00 == 0 && w & 0xF0 == half
    requires half == 0xB0 || (Set1(w, 0x10_0000) && (half == 0xD0 || half == 0xF0))
    ensures OffsetField(w) == Some(Scaled(RegisterAt(w, 0), 0, 0))
    ensures WidthField(w) == if half == 0xB0 then UnsignedHalf else if half == 0xD0 then SignedByte else SignedHalf
  {
    hide Set1, RegisterAt;
    HalfBits(w);
  }

  lemma Decodes6(t: bv32)
    requires t < 0x10000 && (t >> 11) & 31 == 9
    ensures SingleOf(Format6(t)) == Some(ManualSingle(t)) && Format6(t) >> 28 == 14
  {
    hide Format6, OffsetField, WidthField, Set1, RegisterAt, Low;
    Place6(t);
    Data6(t);
    WordOffset(Format6(t), (t & 0xFF) << 2);
  }

  lemma Place6(t: bv32)
    requires t < 0x10000 && (t >> 11) & 31 == 9
    ensures var w := Format6(t);
      && w >> 28 == 14 && Set1(w, 0x80_0000) && Set1(w, 0x100_0000) && !Set1(w, 0x20_0000)
      && RegisterAt(w, 16) == 15 && RegisterAt(w, 12) == Low(t, 8) && Set1(w, 0x10_0000) == true
  {
  }

  lemma Data6(t: bv32)
    requires t < 0x10000 && (t >> 11) & 31 == 9
    ensures var w := Format6(t); (w >> 25) & 7 == 2 && w & 0xFFF == (t & 0xFF) << 2 && !Set1(w, 0x40_0000)
  {
  }

  lemma Decodes7(t: bv32)
    requires t < 0x10000 && 10 <= (t >> 11) & 31 <= 11 && t & 0x200 == 0
    ensures SingleOf(Format7(t)) == Some(ManualSingle(t)) && Format7(t) >> 28 == 14
  {
    hide Format7, OffsetField, WidthField, Set1, RegisterAt, Low;
    Place7(t);
    Data7(t);
    WordRegister(Format7(t));
  }

  lemma Place7(t: bv32)
    requires t < 0x10000 && 10 <= (t >> 11) & 31 <= 11 && t & 0x200 == 0
    ensures var w := Format7(t);
      && w >> 28 == 14 && Set1(w, 0x80_0000) && Set1(w, 0x100_0000) && !Set1(w, 0x20_0000)
      && RegisterAt(w, 16) == Low(t, 3) && RegisterAt(w, 12) == Low(t, 0) && Set1(w, 0x10_0000) == (t & 0x800 != 0)
  {
  }

  lemma Data7(t: bv32)
    requires t < 0x10000 && 10 <= (t >> 11) & 31 <= 11 && t & 0x200 == 0
    ensures var w := Format7(t);
      && (w >> 25) & 7 == 3 && w & 0xFF0 == 0 && Set1(w, 0x40_0000) == (t & 0x400 != 0)
      && RegisterAt(w, 0) == Low(t, 6)
  {
  }

  lemma Decodes8(t: bv32)
    requires t < 0x10000 && 10 <= (t >> 11) & 31 <= 11 && t & 0x200 != 0
    ensures SingleOf(Format8(t)) == Some(ManualSingle(t)) && Format8(t) >> 28 == 14
  {
    hide Format8, OffsetField, WidthField, Set1, RegisterAt, Low;
    Place8(t);
    Data8(t);
    HalfRegister(Format8(t), HalfOf(t));
  }

  lemma Place8(t: bv32)
    requires t < 0x10000 && 10 <= (t >> 11) & 31 <= 11 && t & 0x200 != 0
    ensures var w := Format8(t);
      && w >> 28 == 14 && Set1(w, 0x80_0000) && Set1(w, 0x100_0000) && !Set1(w, 0x20_0000)
      && RegisterAt(w, 16) == Low(t, 3) && RegisterAt(w, 12) == Low(t, 0)
      && Set1(w, 0x10_0000) == (t & 0x800 != 0 || t & 0x400 != 0)
  {
  }

  lemma Data8(t: bv32)
    requires t < 0x10000 && 10 <= (t >> 11) & 31 <= 11 && t & 0x200 != 0
    ensures var w := Format8(t);
      && (w >> 25) & 7 == 0 && w & 0xF00 == 0 && !Set1(w, 0x40_0000)
      && RegisterAt(w, 0) == Low(t, 6) && w & 0xF0 == HalfOf(t)
  {
  }

  lemma Decodes9(t: bv32)
    requires t < 0x10000 && 12 <= (t >> 11) & 31 <= 15
    ensures SingleOf(Format9(t)) == Some(ManualSingle(t)) && Format9(t) >> 28 == 14
  {
    hide Format9, OffsetField, WidthField, Set1, RegisterAt, Low;
    Place9(t);
    Data9(t);
    WordOffset(Format9(t), Offset9(t));
  }

  lemma Place9(t: bv32)
    requires t < 0x10000 && 12 <= (t >> 11) & 31 <= 15
    ensures var w := Format9(t);
      && w >> 28 == 14 && Set1(w, 0x80_0000) && Set1(w, 0x100_0000) && !Set1(w, 0x20_0000)
      && RegisterAt(w, 16) == Low(t, 3) && RegisterAt(w, 12) == Low(t, 0) && Set1(w, 0x10_0000) == (t & 0x800 != 0)
  {
  }

  lemma Data9(t: bv32)
    requires t < 0x10000 && 12 <= (t >> 11) & 31 <= 15
    ensures var w := Format9(t);
      (w >> 25) & 7 == 2 && w & 0xFFF == Offset9(t) && Set1(w, 0x40_0000) == ((t >> 11) & 31 > 13)
  {
    hide Format9, DataAndBase;
    Bit12(t);
    Base9(t);
    if t & 0x1000 == 0 {
      Fields9(if t & 0x800 == 0 then 0xE5800000 else 0xE5900000, DataAndBase(t), (t & 0x07C0) >> 4);
      Words9(t);
    } else {
      Fields9(if t & 0x800 == 0 then 0xE5C00000 else 0xE5D00000, DataAndBase(t), (t & 0x07C0) >> 6);
      Words9(t);
    }
  }

  lemma Bit12(t: bv32)
    requires t < 0x10000 && 12 <= (t >> 11) & 31 <= 15
    ensures t & 0x1000 == 0 <==> (t >> 11) & 31 <= 13
  {
  }

  lemma Base9(t: bv32)
    ensures Format9(t) ==
      (if t & 0x1000 == 0 then (if t & 0x800 == 0 then 0xE5800000 else 0xE5900000)
       else if t & 0x800 == 0 then 0xE5C00000 else 0xE5D00000)
      | DataAndBase(t) | (if t & 0x1000 != 0 then (t & 0x07C0) >> 6 else (t & 0x07C0) >> 4)
  {
    hide DataAndBase;
  }

  lemma Words9(t: bv32)
    ensures DataAndBase(t) & 0xFFC00FFF == 0
    ensures (t & 0x07C0) >> 4 == ((t >> 6) & 31) << 2 && (t & 0x07C0) >> 6 == (t >> 6) & 31
    ensures ((t & 0x07C0) >> 4) & 0xFFF == (t & 0x07C0) >> 4 && ((t & 0x07C0) >> 6) & 0xFFF == (t & 0x07C0) >> 6
  {
  }

  /** The parts of the word do not overlap. */
  lemma Fields9(base: bv32, d: bv32, n: bv32)
    requires base == 0xE5800000 || base == 0xE5900000 || base == 0xE5C00000 || base == 0xE5D00000
    ensures d & 0xFFC00FFF == 0 && n & 0xFFF == n ==>
      var w := base | d | n;
      (w >> 25) & 7 == 2 && w & 0xFFF == n && (w & 0x40_0000 != 0 <==> base & 0x40_0000 != 0)
  {
  }

  lemma Decodes10(t: bv32)
    requires t < 0x10000 && 16 <= (t >> 11) & 31 <= 17
    ensures SingleOf(Format10(t)) == Some(ManualSingle(t)) && Format10(t) >> 28 == 14
  {
    hide Format10, OffsetField, WidthField, Set1, RegisterAt, Low;
    Place10(t);
    Data10(t);
    HalfOffset(Format10(t), ((t >> 6) & 31) << 1);
  }

  lemma Place10(t: bv32)
    requires t < 0x10000 && 16 <= (t >> 11) & 31 <= 17
    ensures var w := Format10(t);
      && w >> 28 == 14 && Set1(w, 0x80_0000) && Set1(w, 0x100_0000) && !Set1(w, 0x20_0000)
      && RegisterAt(w, 16) == Low(t, 3) && RegisterAt(w, 12) == Low(t, 0) && Set1(w, 0x10_0000) == (t & 0x800 != 0)
  {
  }

  lemma Data10(t: bv32)
    requires t < 0x10000 && 16 <= (t >> 11) & 31 <= 17
    ensures var w := Format10(t);
      && (w >> 25) & 7 == 0 && w & 0xF0 == 0xB0 && Set1(w, 0x40_0000)
      && ((w >> 4) & 0xF0) | (w & 15) == ((t >> 6) & 31) << 1
  {
  }

  lemma Decodes11(t: bv32)
    requires t < 0x10000 && 18 <= (t >> 11) & 31 <= 19
    ensures SingleOf(Format11(t)) == Some(ManualSingle(t)) && Format11(t) >> 28 == 14
  {
    hide Format11, OffsetField, WidthField, Set1, RegisterAt, Low;
    Place11(t);
    Data11(t);
    WordOffset(Format11(t), (t & 0xFF) << 2);
  }

  lemma Place11(t: bv32)
    requires t < 0x10000 && 18 <= (t >> 11) & 31 <= 19
    ensures var w := Format11(t);
      && w >> 28 == 14 && Set1(w, 0x80_0000) && Set1(w, 0x100_0000) && !Set1(w, 0x20_0000)
      && RegisterAt(w, 16) == 13 && RegisterAt(w, 12) == Low(t, 8) && Set1(w, 0x10_0000) == (t & 0x800 != 0)
  {
  }

  lemma Data11(t: bv32)
    requires t < 0x10000 && 18 <= (t >> 11) & 31 <= 19
    ensures var w := Format11(t); (w >> 25) & 7 == 2 && w & 0xFFF == (t & 0xFF) << 2 && !Set1(w, 0x40_0000)
  {
  }

  // ---- The interpreter ---------------------------------------------------

  /** The offset: LSImmRHS, LSRegRHS or GetLS7RHS. */
  method OffsetNow(cpu: Cpu.State, o: Offset) returns (rhs: u32)
    requires cpu.Executing()
    ensures rhs == OffsetOf(cpu.Current(), o)
  {
    hide Cpu.TableReady, ConstantShift, Wrap;
    match o
    case Constant(n) => rhs := n as nat;
    case Scaled(rm, shift, amount) =>
      var base: u32 := if rm == 15 then cpu.Reg[15] else cpu.Reg[Index(rm)];
      rhs := cpu.ConstantValue(ShiftOf(shift), base, amount as nat);
  }

  /** The value that is loaded: an unaligned word is rotated back, and signed values are extended. */
  method LoadValue(mem: Segments, at: u32, w: Width) returns (x: u32)
    requires mem.Valid() && at + Span(w) < TWO32
    modifies mem.mappings
    ensures mem.Valid() && x == Extended(w, Loaded(mem.view, at, Span(w)))
  {
    hide mem.Valid, Loaded, LoadedWord, Wrap, Align;
    match w
    case FullWord =>
      WordBack(mem.view, at);
      x := mem.Read32(at);
      if at % 4 != 0 { x := Align(at, x); }
      WrapSmall(x);
    case UnsignedByte =>
      x := mem.Read8(at);
      WrapSmall(x);
    case SignedByte =>
      var b: int := mem.Read8(at);
      x := if b >= 0x80 then Wrap(b - 0x100) else b;
      WrapSmall(b);
    case UnsignedHalf =>
      x := mem.Read16(at);
      WrapSmall(x);
    case SignedHalf =>
      var h: int := mem.Read16(at);
      x := if h >= 0x8000 then Wrap(h - 0x1_0000) else h;
      WrapSmall(h);
  }

  /** Align undoes the rotation of the word load, also when nothing is loaded. */
  lemma WordBack(f: Flat, at: u32)
    ensures Loaded(f, at, 4) < TWO32
    ensures (if at % 4 != 0 then Align(at, LoadedWord(f, at)) else LoadedWord(f, at)) == Loaded(f, at, 4)
  {
    hide Align, Little, Slice;
    if Holds(f, at, 4) {
      AlignUndoesRotation(f, at);
    } else if at % 4 != 0 {
      AlignZero(at);
    }
  }

  lemma AlignZero(at: u32)
    requires at % 4 != 0
    ensures Align(at, 0) == 0
  {
    hide Pow2, Align;
    AlignMeans(at, 0);
    ZeroParts(Pow2(8 * (at % 4)), Pow2(32 - 8 * (at % 4)));
  }

  lemma ZeroParts(p: nat, q: nat)
    requires p >= 1
    ensures 0 / p + (0 % p) * q == 0
  {
    DivUnique(0, p, 0, 0);
  }

  /** Stores the low bytes of a register. */
  method StoreValue(mem: Segments, at: u32, w: Width, x: u32)
    requires mem.Valid() && at + Span(w) < TWO32
    modifies mem`view, mem.mappings, mem.blocks
    ensures mem.Valid() && mem.view == Stored(old(mem.view), at, Bytes(x, Span(w)))
  {
    hide mem.Valid, Stored, Bytes;
    LowBytes(x);
    match Span(w)
    case 1 => var _ := mem.Write8(at, x % 256);
    case 2 => var _ := mem.Write16(at, x % 0x1_0000);
    case _ => var _ := mem.Write32(at, x);
  }

  lemma LowBytes(x: u32)
    ensures Bytes(x, 1) == [x % 256] && Bytes(x % 0x1_0000, 2) == Bytes(x, 2)
  {
    assert Bytes(x / 256, 0) == [];
    assert Bytes(x, 2) == [Byte(x)] + Bytes(x / 256, 1);
    SameLow(x);
  }

  lemma SameLow(x: nat)
    ensures Byte(x % 0x1_0000) == Byte(x) && Byte(x % 0x1_0000 / 256) == Byte(x / 256)
  {
    var q, r := x / 0x1_0000, x % 0x1_0000;
    DivUnique(x, 256, 256 * q + r / 256, r % 256);
    SameRemainder(r / 256, q, 256);
  }

  /** The single data transfers (cases 0x40 to 0x7f of the interpreter's switch, and the halfword forms among cases 0x00
      to 0x1f). A base that is also the destination of a load is not written back. */
  method ExecuteSingle(cpu: Cpu.State, mem: Segments, s: Single)
    requires cpu.Executing() && mem.Valid() && SingleStep(cpu.Current(), mem.view, s).Some?
    modifies cpu, cpu.Reg, mem`view, mem.mappings, mem.blocks
    ensures cpu.Ready() && mem.Valid()
    ensures Some((cpu.Between(), mem.view)) == SingleStep(old(cpu.Current()), old(mem.view), s)
  {
    hide Cpu.TableReady, mem.Valid, Wrap, OffsetOf, FirstOperand, Stored, Bytes, Loaded, Extended, cpu.Ready,
      cpu.Between, Exchange, Index;
    ghost var a, f := cpu.Current(), mem.view;
    cpu.LhsIsFirstOperand(a, s.rn);
    var lhs: int := cpu.Lhs(s.rn);
    var rhs: int := OffsetNow(cpu, s.offset);
    var temp := Wrap(if s.up then lhs + rhs else lhs - rhs);
    var address := if s.pre then temp else lhs;
    if s.load {
      var x := LoadValue(mem, address, s.width);
      LoadInto(cpu, s, x, temp);
    } else {
      StoreFrom(cpu, mem, s, address, temp);
    }
  }

  /** The end of a load: WRITEDEST, or WRITEDESTB for words, and the write-back. */
  method LoadInto(cpu: Cpu.State, s: Single, x: u32, temp: u32)
    requires cpu.Executing() && (WritesBase(s) ==> s.rn != 15)
    requires var b := Next(cpu.Current()); PutLoaded(if WritesBase(s) then Set(b, s.rn, temp) else b, s, x).Some?
    modifies cpu, cpu.Reg
    ensures cpu.Ready()
    ensures var b := Next(old(cpu.Current()));
      PutLoaded(if WritesBase(s) then Set(b, s.rn, temp) else b, s, x) == Some(cpu.Between())
  {
    hide Cpu.TableReady, Wrap, cpu.Ready, cpu.Between, Exchange, AlignDown, Size, Index;
    ghost var a := cpu.Current();
    Commute(Next(a), s, x, temp);
    if s.rd == 15 && s.width == FullWord {
      Cpu.ExchangeMeans(Next(a), x);
      cpu.WriteR15Branch(x);
    } else {
      cpu.WriteDest(s.rd, x);
    }
    if WritesBase(s) && s.rd != s.rn { cpu.WriteRegister(Index(s.rn), temp); }
  }

  /** Writing the base and the destination in either order: if they are the same, the loaded value stays. */
  lemma Commute(b: Core, s: Single, x: u32, temp: u32)
    requires |b.r| == 15 && (WritesBase(s) ==> s.rn != 15)
    ensures var c := PutLoaded(b, s, x);
      PutLoaded(if WritesBase(s) then Set(b, s.rn, temp) else b, s, x) ==
        if c.Some? && WritesBase(s) && s.rd != s.rn then Some(c.value.(r := c.value.r[Index(s.rn) := temp])) else c
  {
    hide AlignDown, Size, Index;
    if s.rd != 15 && s.rn != 15 {
      Cpu.IndexInjective(s.rd, s.rn);
      TwoUpdates(b.r, Index(s.rd), Index(s.rn), x, temp);
    }
  }

  lemma TwoUpdates(r: seq<u32>, i: nat, j: nat, x: u32, y: u32)
    requires i < |r| && j < |r|
    ensures r[j := y][i := x] == if i == j then r[i := x] else r[i := x][j := y]
  {
  }

  method StoreFrom(cpu: Cpu.State, mem: Segments, s: Single, address: u32, temp: u32)
    requires cpu.Executing() && mem.Valid() && (WritesBase(s) ==> s.rn != 15) && address + Span(s.width) < TWO32
    modifies cpu, cpu.Reg, mem`view, mem.mappings, mem.blocks
    ensures cpu.Ready() && mem.Valid()
    ensures mem.view == Stored(old(mem.view), address, Bytes(Read(old(cpu.Current()), s.rd), Span(s.width)))
    ensures var b := Next(old(cpu.Current())); cpu.Between() == if WritesBase(s) then Set(b, s.rn, temp) else b
  {
    hide Cpu.TableReady, Wrap, mem.Valid, Stored, Bytes, cpu.Ready, cpu.Between, Index;
    ghost var a := cpu.Current();
    cpu.NextInstr := cpu.NextInstr | 1;
    StoreValue(mem, address, s.width, if s.rd == 15 then cpu.Reg[15] else cpu.Reg[Index(s.rd)]);
    cpu.Sequenced(a);
    if WritesBase(s) { cpu.WriteRegister(Index(s.rn), temp); }
  }
}
