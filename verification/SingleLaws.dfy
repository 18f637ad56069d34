/** What LDR and STR do in each of their addressing modes, in terms of registers and bytes alone (sections A5.2 and A5.3
    of ARM DDI 0100I), and their encodings. */
module SingleLaws {
  import opened Words
  import opened Shifter
  import opened Architecture
  import opened Memory
  import opened SingleTransfer
  import BlockTransfer
  import Machine

  // ---- Addressing --------------------------------------------------------

  /** The base register, or the word at or below the PC that an instruction reads. */
  function Base(a: Core, rn: bv4): u32
    requires |a.r| == 15
  {
    if rn != 15 then a.r[Index(rn)] else AlignDown(Wrap(a.pc + if a.thumb then 4 else 8), 4)
  }

  /** The base moved by the offset. */
  function MovedBase(a: Core, s: Single): u32
    requires |a.r| == 15
  {
    var offset: int := match s.offset
      case Constant(n) => n as nat
      case Scaled(rm, shift, amount) => ConstantShift(ShiftOf(shift), Read(a, rm), a.f.c, amount as nat).value;
    Wrap(if s.up then Base(a, s.rn) + offset else Base(a, s.rn) - offset)
  }

  /** Do the registers differ in these two at most? */
  ghost predicate SameButTwo(r: seq<u32>, s: seq<u32>, i: bv4, j: bv4) {
    |r| == 15 && |s| == 15 && forall k: nat :: k < 15 && k != i as nat && k != j as nat ==> s[k] == r[k]
  }

  /** Pre-indexed and plain loads: the value comes from the moved base, which is written back if the instruction says so
      and does not load it. */
  lemma LoadsPreIndexed(a: Core, f: Flat, s: Single)
    requires |a.r| == 15 && s.load && s.pre && s.rd != 15 && s.rn != 15 && SingleStep(a, f, s).Some?
    ensures var (b, g) := SingleStep(a, f, s).value;
      && g == f && b == Next(a).(r := b.r) && SameButTwo(a.r, b.r, s.rd, s.rn)
      && b.r[Index(s.rd)] == SingleTransfer.Extended(s.width, Loaded(f, MovedBase(a, s), Span(s.width)))
      && (s.rn != s.rd ==> b.r[Index(s.rn)] == if s.wback then MovedBase(a, s) else a.r[Index(s.rn)])
  {
    hide Wrap, ConstantShift, Loaded, SingleTransfer.Extended, Span, Index, AlignDown, Address, Target, MovedBase, Set;
    SameAddress(a, s);
    TwoRegisters(Next(a), s, MovedBase(a, s),
                 SingleTransfer.Extended(s.width, Loaded(f, MovedBase(a, s), Span(s.width))));
  }

  /** A load sets the base, if it is written back, and then the data register. */
  lemma TwoRegisters(a: Core, s: Single, base: u32, x: u32)
    requires |a.r| == 15 && s.rd != 15 && s.rn != 15
    ensures var b := Set(if WritesBase(s) then Set(a, s.rn, base) else a, s.rd, x);
      && b == a.(r := b.r) && SameButTwo(a.r, b.r, s.rd, s.rn) && b.r[Index(s.rd)] == x
      && (s.rn != s.rd ==> b.r[Index(s.rn)] == if WritesBase(s) then base else a.r[Index(s.rn)])
  {
    hide Index;
    Places(s);
  }

  /** Post-indexed loads: the value comes from the old base, and the moved base is written back unless it is loaded. */
  lemma LoadsPostIndexed(a: Core, f: Flat, s: Single)
    requires |a.r| == 15 && s.load && !s.pre && s.rd != 15 && s.rn != 15 && SingleStep(a, f, s).Some?
    ensures var (b, g) := SingleStep(a, f, s).value;
      && g == f && b == Next(a).(r := b.r) && SameButTwo(a.r, b.r, s.rd, s.rn)
      && b.r[Index(s.rd)] == SingleTransfer.Extended(s.width, Loaded(f, a.r[Index(s.rn)], Span(s.width)))
      && (s.rn != s.rd ==> b.r[Index(s.rn)] == MovedBase(a, s))
  {
    hide Wrap, ConstantShift, Loaded, SingleTransfer.Extended, Span, Index, AlignDown, Address, Target, MovedBase, Set;
    SameAddress(a, s);
    TwoRegisters(Next(a), s, MovedBase(a, s),
                 SingleTransfer.Extended(s.width, Loaded(f, a.r[Index(s.rn)], Span(s.width))));
  }

  /** Loads relative to the PC. */
  lemma LoadsLiteral(a: Core, f: Flat, s: Single)
    requires |a.r| == 15 && s.load && s.rn == 15 && s.rd != 15 && SingleStep(a, f, s).Some?
    ensures SingleStep(a, f, s) == Some((
      Set(Next(a), s.rd, SingleTransfer.Extended(s.width, Loaded(f, MovedBase(a, s), Span(s.width)))), f))
  {
    hide Wrap, ConstantShift, Loaded, SingleTransfer.Extended, Span, Index, AlignDown;
  }

  /** A word loaded into the PC: bit 0 selects the instruction set. */
  lemma LoadsPc(a: Core, f: Flat, s: Single)
    requires |a.r| == 15 && s.load && s.width == FullWord && s.rd == 15 && s.rn != 15 && SingleStep(a, f, s).Some?
    ensures var at := if s.pre then MovedBase(a, s) else a.r[Index(s.rn)];
      var x := SingleTransfer.Extended(FullWord, Loaded(f, at, 4));
      var (b, g) := SingleStep(a, f, s).value;
      && g == f && b.f == a.f && b.thumb == (x % 2 == 1) && b.pc == x - x % 2
      && b.r == if s.pre && !s.wback then a.r else a.r[Index(s.rn) := MovedBase(a, s)]
  {
    hide Wrap, ConstantShift, Loaded, SingleTransfer.Extended, Index, AlignDown, StatusWord;
  }

  /** Stores: the low bytes of the register go to the moved base, or to the old one if the instruction is post-indexed;
      no other byte changes, and no register but a base that is written back. */
  lemma Stores(a: Core, f: Flat, s: Single)
    requires |a.r| == 15 && !s.load && s.rn != 15 && SingleStep(a, f, s).Some?
    ensures var (b, g) := SingleStep(a, f, s).value; var n := Span(s.width);
      var at := if s.pre then MovedBase(a, s) else a.r[Index(s.rn)];
      && b == Next(a).(r := if s.pre && !s.wback then a.r else a.r[Index(s.rn) := MovedBase(a, s)])
      && BlockTransfer.SameOutside(f, g, at, at + n)
      && (Holds(f, at, n) ==> Mapped(g, at, n) && Slice(g, at, n) == Bytes(Read(a, s.rd), n))
  {
    hide Wrap, ConstantShift, Bytes, Span, Index, AlignDown, Read, ReadPc, Holds, Mapped, BlockTransfer.SameOutside;
    var n := Span(s.width);
    var at := if s.pre then MovedBase(a, s) else a.r[Index(s.rn)];
    SameAddress(a, s);
    BytesLength(Read(a, s.rd), n);
    BlockTransfer.StoredFrame(f, at, Bytes(Read(a, s.rd), n));
    SliceOfBlit(f, at, Bytes(Read(a, s.rd), n));
  }

  lemma Places(s: Single)
    ensures s.rn != 15 && s.rd != 15 ==> (Index(s.rn) == Index(s.rd) <==> s.rn == s.rd)
    ensures s.rn != 15 ==> Index(s.rn) == s.rn as nat
    ensures s.rd != 15 ==> Index(s.rd) == s.rd as nat
  {
  }

  lemma SameAddress(a: Core, s: Single)
    requires |a.r| == 15 && s.rn != 15
    ensures Address(a, s) == if s.pre then MovedBase(a, s) else a.r[Index(s.rn)]
    ensures Target(a, s) == MovedBase(a, s)
  {
    hide Wrap, ConstantShift, AlignDown;
  }

  lemma BytesLength(w: nat, n: nat)
    ensures |Bytes(w, n)| == n
  {
  }

  /** Signed loads keep the low bits and give them their signed value. */
  lemma SignedLoads(x: nat)
    ensures x < 0x100 ==>
      var v := Signed(SingleTransfer.Extended(SignedByte, x)); -0x80 <= v < 0x80 && (v - x) % 0x100 == 0
    ensures x < 0x1_0000 ==>
      var v := Signed(SingleTransfer.Extended(SignedHalf, x)); -0x8000 <= v < 0x8000 && (v - x) % 0x1_0000 == 0
    ensures x < TWO32 ==>
      SingleTransfer.Extended(FullWord, x) == x && SingleTransfer.Extended(UnsignedByte, x) == x
      && SingleTransfer.Extended(UnsignedHalf, x) == x
  {
  }

  // ---- A stack of single words -------------------------------------------

  /** STR rd, [rn, #-4]! */
  function PushOne(rn: bv4, rd: bv4): Single { Single(false, FullWord, false, true, true, rn, rd, Constant(4)) }

  /** LDR rd, [rn], #4 */
  function PopOne(rn: bv4, rd: bv4): Single { Single(true, FullWord, true, false, false, rn, rd, Constant(4)) }

  /** A word that is pushed and popped again: the registers are as before, and only the four bytes below the base have
      changed. */
  lemma PopOneUndoesPushOne(a: Core, f: Flat, rn: bv4, rd: bv4)
    requires |a.r| == 15 && rn != 15 && rd != 15 && rn != rd && a.r[Index(rn)] >= 4
    requires Holds(f, a.r[Index(rn)] - 4, 4)
    ensures SingleStep(a, f, PushOne(rn, rd)).Some?
    ensures var (b, g) := SingleStep(a, f, PushOne(rn, rd)).value; var base := a.r[Index(rn)];
      && |b.r| == 15 && SingleStep(b, g, PopOne(rn, rd)) == Some((Next(Next(a)), g))
      && BlockTransfer.SameOutside(f, g, base - 4, base)
      && Mapped(g, base - 4, 4) && Slice(g, base - 4, 4) == Bytes(a.r[Index(rd)], 4)
  {
    hide SingleStep, Loaded, Bytes, Index, AlignDown, Holds, Mapped, BlockTransfer.SameOutside, Stored, Slice;
    var base := a.r[Index(rn)];
    Places(PushOne(rn, rd));
    PushesOne(a, f, rn, rd);
    Stores(a, f, PushOne(rn, rd));
    var (b, g) := SingleStep(a, f, PushOne(rn, rd)).value;
    ReadBack(f, base - 4, a.r[Index(rd)], 4);
    Pow2At32();
    WrapSmall(a.r[Index(rd)]);
    PopsOne(b, g, rn, rd, base);
    assert b.r[Index(rn) := base][Index(rd) := a.r[Index(rd)]] == a.r;
  }

  lemma PushesOne(a: Core, f: Flat, rn: bv4, rd: bv4)
    requires |a.r| == 15 && rn != 15 && rd != 15 && a.r[Index(rn)] >= 4
    ensures var at: u32 := a.r[Index(rn)] - 4;
      && MovedBase(a, PushOne(rn, rd)) == at
      && SingleStep(a, f, PushOne(rn, rd)) == Some((Set(Next(a), rn, at), Stored(f, at, Bytes(a.r[Index(rd)], 4))))
  {
    hide Bytes, Index, AlignDown, Stored;
    WrapSmall(a.r[Index(rn)] - 4);
  }

  lemma PopsOne(b: Core, g: Flat, rn: bv4, rd: bv4, base: u32)
    requires |b.r| == 15 && rn != 15 && rd != 15 && base >= 4 && b.r[Index(rn)] == base - 4
    ensures SingleStep(b, g, PopOne(rn, rd)) ==
      Some((Next(b).(r := b.r[Index(rn) := base][Index(rd) := Wrap(Loaded(g, base - 4, 4))]), g))
  {
    hide Loaded, Index, AlignDown;
    WrapSmall(base);
  }

  // ---- Encodings ---------------------------------------------------------

  /** The bits P, U and W and the registers (sections A5.2 and A5.3). */
  function Common(p: bool, u: bool, w: bool, rn: bv32, rd: bv32): bv32 {
    (if p then 0x100_0000 else 0) | (if u then 0x80_0000 else 0) | (if w then 0x20_0000 else 0)
    | (rn << 16) | (rd << 12)
  }

  function LoadBit(load: bool): bv32 { if load then 0x10_0000 else 0 }

  /** Words and bytes: bit 22 is B, bit 25 tells a register offset. */
  function WordConstant(load: bool, byte: bool, n: bv12): bv32 {
    0xE400_0000 | LoadBit(load) | (if byte then 0x40_0000 else 0) | (n as bv32)
  }

  function WordScaled(load: bool, byte: bool, rm: bv4, shift: bv2, amount: bv5): bv32 {
    0xE600_0000 | LoadBit(load) | (if byte then 0x40_0000 else 0)
    | (rm as bv32) | ((shift as bv32) << 5) | ((amount as bv32) << 7)
  }

  /** Halfwords and signed bytes: bits 6 and 5 tell signed ones and halfwords, bit 22 tells a constant offset. */
  function HalfBits(w: Width): bv32 { match w case SignedByte => 0x40 case SignedHalf => 0x60 case _ => 0x20 }

  function HalfConstant(load: bool, half: bv32, n: bv12): bv32 {
    0xE040_0090 | LoadBit(load) | half | (((n as bv32) & 0xF0) << 4) | ((n as bv32) & 15)
  }

  function HalfScaled(load: bool, half: bv32, rm: bv4): bv32 { 0xE000_0090 | LoadBit(load) | half | (rm as bv32) }

  predicate IsWordTransfer(s: Single) { s.width == FullWord || s.width == UnsignedByte }

  /** Signed values are only loaded; offsets of halfwords have eight bits or are plain registers. */
  predicate HasEncoding(s: Single) {
    IsWordTransfer(s) ||
    ((s.width == UnsignedHalf || s.load) &&
     match s.offset
     case Constant(n) => n < 0x100
     case Scaled(_, shift, amount) => shift == 0 && amount == 0)
  }

  function Rest(s: Single): bv32 {
    match s.offset
    case Constant(n) =>
      if IsWordTransfer(s) then WordConstant(s.load, s.width == UnsignedByte, n)
      else HalfConstant(s.load, HalfBits(s.width), n)
    case Scaled(rm, shift, amount) =>
      if IsWordTransfer(s) then WordScaled(s.load, s.width == UnsignedByte, rm, shift, amount)
      else HalfScaled(s.load, HalfBits(s.width), rm)
  }

  /** The word of an unconditional LDR or STR. */
  function EncodeSingle(s: Single): bv32 { Completed(s.pre, s.up, s.wback, s.rn, s.rd, Rest(s)) }

  function Completed(p: bool, u: bool, w: bool, rn: bv4, rd: bv4, rest: bv32): bv32 {
    Common(p, u, w, rn as bv32, rd as bv32) | rest
  }

  /** The instruction is unconditional. */
  predicate Always(w: bv32) { w >> 28 == 14 }

  /** Room is left for the common bits. */
  predicate Clear(w: bv32) { w & 0x01AF_F000 == 0 }

  /** What is encoded is decoded: every LDR and STR that has an encoding is the meaning of its word. */
  lemma EncodedIsDecoded(s: Single)
    requires HasEncoding(s)
    ensures SingleOf(EncodeSingle(s)) == Some(s) && Always(EncodeSingle(s))
  {
    hide Completed, HasEncoding, Rest, Set1, RegisterAt, OffsetField, WidthField, Always, Clear;
    RestDecodes(s);
    CommonDecodes(s.pre, s.up, s.wback, s.rn, s.rd, Rest(s));
    KindKept(s.pre, s.up, s.wback, s.rn, s.rd, Rest(s));
  }

  /** The common bits and registers are decoded whatever the rest is. */
  lemma CommonDecodes(p: bool, u: bool, w: bool, rn: bv4, rd: bv4, d: bv32)
    requires Clear(d)
    ensures var x := Completed(p, u, w, rn, rd, d);
      && Set1(x, 0x80_0000) == u && Set1(x, 0x100_0000) == p && Set1(x, 0x20_0000) == w
      && RegisterAt(x, 16) == rn && RegisterAt(x, 12) == rd
  {
    hide Common, Set1, RegisterAt;
    CommonBits(p, u, w, rn, rd, d);
  }

  lemma CommonBits(p: bool, u: bool, w: bool, rn: bv4, rd: bv4, d: bv32)
    requires d & 0x01AF_F000 == 0
    ensures var x := Common(p, u, w, rn as bv32, rd as bv32) | d;
      && Set1(x, 0x80_0000) == u && Set1(x, 0x100_0000) == p && Set1(x, 0x20_0000) == w
      && RegisterAt(x, 16) == rn && RegisterAt(x, 12) == rd
  {
  }

  /** What tells the kind of the transfer comes from the rest. */
  lemma KindKept(p: bool, u: bool, w: bool, rn: bv4, rd: bv4, d: bv32)
    ensures var x := Completed(p, u, w, rn, rd, d);
      && OffsetField(x) == OffsetField(d) && WidthField(x) == WidthField(d)
      && Set1(x, 0x10_0000) == Set1(d, 0x10_0000) && Always(x) == Always(d)
  {
    hide Completed, OffsetField, WidthField, Set1;
    Apart(p, u, w, rn, rd, d);
    SameKind(Completed(p, u, w, rn, rd, d), d);
  }

  lemma Apart(p: bool, u: bool, w: bool, rn: bv4, rd: bv4, d: bv32)
    ensures var x := Completed(p, u, w, rn, rd, d);
      && x & 0xFFF == d & 0xFFF && x & 0x50_0000 == d & 0x50_0000
      && (x >> 25) & 7 == (d >> 25) & 7 && x >> 28 == d >> 28
  {
  }

  lemma SameLow(x: bv32, d: bv32)
    requires x & 0xFFF == d & 0xFFF
    ensures x & 0x60 == d & 0x60 && x & 0x90 == d & 0x90 && x & 0xF00 == d & 0xF00 && x & 0x10 == d & 0x10
    ensures x & 15 == d & 15 && (x >> 4) & 0xF0 == (d >> 4) & 0xF0 && Set1(x, 0x10) == Set1(d, 0x10)
    ensures (x >> 5) & 3 == (d >> 5) & 3 && (x >> 7) & 31 == (d >> 7) & 31
  {
  }

  lemma SameHigh(x: bv32, d: bv32)
    requires x & 0x50_0000 == d & 0x50_0000
    ensures Set1(x, 0x10_0000) == Set1(d, 0x10_0000) && Set1(x, 0x40_0000) == Set1(d, 0x40_0000)
  {
  }

  lemma SameRegister(x: bv32, d: bv32)
    requires x & 15 == d & 15
    ensures RegisterAt(x, 0) == RegisterAt(d, 0)
  {
  }

  lemma SameKind(x: bv32, d: bv32)
    requires x & 0xFFF == d & 0xFFF && (x >> 25) & 7 == (d >> 25) & 7 && x & 0x50_0000 == d & 0x50_0000
    ensures OffsetField(x) == OffsetField(d) && WidthField(x) == WidthField(d)
    ensures Set1(x, 0x10_0000) == Set1(d, 0x10_0000)
  {
    hide RegisterAt, Set1, OffsetField;
    SameLow(x, d);
    SameHigh(x, d);
    SameOffset(x, d);
  }

  lemma SameOffset(x: bv32, d: bv32)
    requires x & 0xFFF == d & 0xFFF && (x >> 25) & 7 == (d >> 25) & 7 && x & 0x50_0000 == d & 0x50_0000
    ensures OffsetField(x) == OffsetField(d)
  {
    hide RegisterAt, Set1, OffsetField;
    if (x >> 25) & 7 == 0 { SameHalfOffset(x, d); } else { SameWordOffset(x, d); }
  }

  lemma SameWordOffset(x: bv32, d: bv32)
    requires x & 0xFFF == d & 0xFFF && (x >> 25) & 7 == (d >> 25) & 7 && (x >> 25) & 7 != 0
    ensures OffsetField(x) == OffsetField(d)
  {
    hide RegisterAt, Set1;
    SameLow(x, d);
    SameRegister(x, d);
  }

  lemma SameHalfOffset(x: bv32, d: bv32)
    requires x & 0xFFF == d & 0xFFF && (x >> 25) & 7 == 0 && (d >> 25) & 7 == 0 && x & 0x50_0000 == d & 0x50_0000
    ensures OffsetField(x) == OffsetField(d)
  {
    hide RegisterAt, Set1;
    SameLow(x, d);
    SameHigh(x, d);
    if Set1(d, 0x40_0000) { SameSplitOffset(x, d); } else { SameRegister(x, d); }
  }

  /** The split offset. */
  lemma SameSplitOffset(x: bv32, d: bv32)
    requires x & 0xFFF == d & 0xFFF
    ensures (((x >> 4) & 0xF0) | (x & 15)) as bv12 == (((d >> 4) & 0xF0) | (d & 15)) as bv12
  {
  }

  lemma RestDecodes(s: Single)
    requires HasEncoding(s)
    ensures var d := Rest(s);
      && OffsetField(d) == Some(s.offset) && WidthField(d) == s.width && Set1(d, 0x10_0000) == s.load
      && Clear(d) && Always(d)
  {
    hide WordConstant, WordScaled, HalfConstant, HalfScaled, OffsetField, WidthField, Set1, Always, Clear;
    match s.offset
    case Constant(n) =>
      if IsWordTransfer(s) { WordConstants(s.load, s.width == UnsignedByte, n); }
      else { HalfConstants(s.load, s.width, n); }
    case Scaled(rm, shift, amount) =>
      if IsWordTransfer(s) { WordsScaled(s.load, s.width == UnsignedByte, rm, shift, amount); }
      else { HalfsScaled(s.load, s.width, rm); }
  }

  lemma WordConstants(load: bool, byte: bool, n: bv12)
    ensures var d := WordConstant(load, byte, n);
      && OffsetField(d) == Some(Constant(n)) && WidthField(d) == (if byte then UnsignedByte else FullWord)
      && Set1(d, 0x10_0000) == load && Clear(d) && Always(d)
  {
    hide WordConstant, OffsetField, WidthField, Set1, Clear, Always;
    WordConstantBits(load, byte, n);
    Widened(n);
    WordConstantFlags(load, byte, n);
    WordOffset(WordConstant(load, byte, n), n as bv32);
  }

  lemma WordConstantBits(load: bool, byte: bool, n: bv12)
    ensures WordConstant(load, byte, n) & 0xFFF == n as bv32
  {
    Widened(n);
    LowTwelve(LoadBit(load), byte, n as bv32);
  }

  lemma LowTwelve(l: bv32, byte: bool, n: bv32)
    requires n < 0x1000 && (l == 0 || l == 0x10_0000)
    ensures (0xE400_0000 | l | (if byte then 0x40_0000 else 0) | n) & 0xFFF == n
  {
  }

  lemma Widened(n: bv12)
    ensures (n as bv32) as bv12 == n && n as bv32 < 0x1000
  {
  }

  lemma WordConstantFlags(load: bool, byte: bool, n: bv12)
    ensures var d := WordConstant(load, byte, n);
      && (d >> 25) & 7 == 2 && Set1(d, 0x40_0000) == byte && Set1(d, 0x10_0000) == load && Clear(d) && Always(d)
  {
  }

  lemma WordsScaled(load: bool, byte: bool, rm: bv4, shift: bv2, amount: bv5)
    ensures var d := WordScaled(load, byte, rm, shift, amount);
      && OffsetField(d) == Some(Scaled(rm, shift, amount)) && WidthField(d) == (if byte then UnsignedByte else FullWord)
      && Set1(d, 0x10_0000) == load && Clear(d) && Always(d)
  {
    hide WordScaled, Set1, RegisterAt, Clear, Always;
    WordScaledBits(load, byte, rm, shift, amount);
    WordScaledFlags(load, byte, rm, shift, amount);
  }

  lemma WordScaledBits(load: bool, byte: bool, rm: bv4, shift: bv2, amount: bv5)
    ensures var d := WordScaled(load, byte, rm, shift, amount);
      && (d >> 25) & 7 == 3 && RegisterAt(d, 0) == rm
      && ((d >> 5) & 3) as bv2 == shift && ((d >> 7) & 31) as bv5 == amount
  {
  }

  lemma WordScaledFlags(load: bool, byte: bool, rm: bv4, shift: bv2, amount: bv5)
    ensures var d := WordScaled(load, byte, rm, shift, amount);
      && !Set1(d, 0x10) && Set1(d, 0x40_0000) == byte && Set1(d, 0x10_0000) == load && Clear(d) && Always(d)
  {
  }

  lemma HalfConstants(load: bool, w: Width, n: bv12)
    requires w != FullWord && w != UnsignedByte && (w == UnsignedHalf || load) && n < 0x100
    ensures var d := HalfConstant(load, HalfBits(w), n);
      && OffsetField(d) == Some(Constant(n)) && WidthField(d) == w
      && Set1(d, 0x10_0000) == load && Clear(d) && Always(d)
  {
    hide HalfConstant, Set1, Clear, Always;
    HalfConstantBits(load, HalfBits(w), n);
  }

  lemma HalfConstantBits(load: bool, half: bv32, n: bv12)
    requires n < 0x100 && (half == 0x20 || half == 0x40 || half == 0x60)
    ensures var d := HalfConstant(load, half, n);
      && (d >> 25) & 7 == 0 && d & 0x90 == 0x90 && d & 0x60 == half && Set1(d, 0x40_0000)
      && (((d >> 4) & 0xF0) | (d & 15)) as bv12 == n && ((d >> 4) & 0xF0) | (d & 15) == n as bv32
      && Set1(d, 0x10_0000) == load && Clear(d) && Always(d)
  {
  }

  lemma HalfsScaled(load: bool, w: Width, rm: bv4)
    requires w != FullWord && w != UnsignedByte && (w == UnsignedHalf || load)
    ensures var d := HalfScaled(load, HalfBits(w), rm);
      && OffsetField(d) == Some(Scaled(rm, 0, 0)) && WidthField(d) == w
      && Set1(d, 0x10_0000) == load && Clear(d) && Always(d)
  {
  }

  // ---- Programs ----------------------------------------------------------

  /** Is the word at an address this LDR or STR? */
  predicate HoldsSingle(f: Flat, pc: u32, s: Single) {
    HasEncoding(s) && Machine.AsWord(LoadedWord(f, pc)) == EncodeSingle(s)
  }

  /** The interpreter gives every encoded LDR and STR its meaning. */
  lemma RunsSingle(a: Core, f: Flat, s: Single)
    requires WellFormed(a) && !a.thumb && a.pc + 4 < TWO32 && HoldsSingle(f, a.pc, s)
    ensures Machine.EmulatedTurn(a, f) == SingleStep(a, f, s)
  {
    hide SingleStep, EncodeSingle, HasEncoding, SingleOf, Machine.IsBlock, Machine.AsWord, LoadedWord,
      Machine.Conditionally;
    EncodedIsDecoded(s);
    Machine.SingleIsNoBlock(EncodeSingle(s));
    Machine.Always(a, f, EncodeSingle(s));
    NotNever(EncodeSingle(s));
  }

  lemma NotNever(w: bv32)
    requires Always(w)
    ensures w >> 28 != 15
  {
  }

  /** A load, store or block transfer whose condition fails does nothing. */
  lemma SkipsTransfer(a: Core, f: Flat)
    requires WellFormed(a) && !a.thumb && a.pc + 4 < TWO32 && Machine.Transfers(a, Fetch(Machine.CodeIn(f), a))
    requires !Passes((Fetch(Machine.CodeIn(f), a) >> 28) as bv4, a.f)
    ensures Machine.EmulatedTurn(a, f) == Some((a.(pc := Wrap(a.pc + 4)), f))
  {
    hide Machine.Transfers, Machine.TransferStep, Fetch, Machine.CodeIn, Passes, Wrap;
  }

  /** Are the registers as before two instructions, and is the word x below the base all that memory has got? */
  ghost predicate Restored(a: Core, f: Flat, s: Option<(Core, Flat)>, base: u32, x: u32) {
    && s.Some? && s.value.0 == a.(pc := Wrap(a.pc + 8)) && BlockTransfer.SameOutside(f, s.value.1, base - 4, base)
    && Mapped(s.value.1, base - 4, 4) && Slice(s.value.1, base - 4, 4) == Bytes(x, 4)
  }

  /** The program STR rd, [rn, #-4]!; LDR rd, [rn], #4 leaves every register but the PC as it was, if the word it uses
      does not overwrite its second instruction. */
  lemma PushPopWord(a: Core, f: Flat, rn: bv4, rd: bv4)
    requires WellFormed(a) && !a.thumb && a.pc + 8 < TWO32 && rn != 15 && rd != 15 && rn != rd
    requires HoldsSingle(f, a.pc, PushOne(rn, rd)) && HoldsSingle(f, a.pc + 4, PopOne(rn, rd))
    requires var base := a.r[Index(rn)];
      base >= 4 && Holds(f, base - 4, 4) && (a.pc + 8 <= base - 4 || base <= a.pc + 4)
    ensures Restored(a, f, Machine.EmulatedTurns(a, f, 2), a.r[Index(rn)], a.r[Index(rd)])
  {
    hide SingleStep, HoldsSingle, Machine.EmulatedTurn, BlockTransfer.SameOutside, Index, Wrap, Next, Bytes, Holds,
      Mapped;
    PopOneUndoesPushOne(a, f, rn, rd);
    Machine.TwoOn(a);
    WrapSmall(a.pc + 8);
    var (b, g) := SingleStep(a, f, PushOne(rn, rd)).value;
    var base := a.r[Index(rn)];
    PushesOne(a, f, rn, rd);
    RunsSingle(a, f, PushOne(rn, rd));
    SameSingle(f, g, base - 4, base, a.pc + 4, PopOne(rn, rd));
    RunsSingle(b, g, PopOne(rn, rd));
    assert Machine.EmulatedTurns(a, f, 0) == Some((a, f));
    assert Machine.EmulatedTurns(a, f, 1) == Some((b, g));
  }

  lemma SameSingle(f: Flat, g: Flat, lo: int, hi: int, pc: u32, s: Single)
    requires BlockTransfer.SameOutside(f, g, lo, hi) && (pc + 4 <= lo || hi <= pc) && HoldsSingle(f, pc, s)
    ensures HoldsSingle(g, pc, s)
  {
    hide BlockTransfer.SameOutside, EncodeSingle, HasEncoding, Machine.AsWord, LittleWord;
    BlockTransfer.SameHolds(f, g, lo, hi, pc, 4);
  }
}
