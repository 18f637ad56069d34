/** LDM and STM of src/arm11/armemu.c over the segmented memory, and the round trip of a push and a pop. */
module BlockTransfer {
  import opened Words
  import opened Architecture
  import opened Memory
  import opened Tables
  import Cpu

  // ---- What a block transfer means (section A5.4 of ARM DDI 0100I) --------

  /** The fields of LDM and STM: direction, pre- or post-indexing, write-back, load, base register, register list. */
  datatype Block = Block(up: bool, pre: bool, wback: bool, load: bool, rn: bv4, list: nat)

  predicate WellFormedList(list: nat) { 0 < list < 0x1_0000 }

  function StartAddress(base: u32, b: Block): u32 {
    var n := 4 * Count(b.list, 16);
    Wrap(if b.up then (if b.pre then base + 4 else base) else if b.pre then base - n else base - n + 4)
  }

  function NewBase(base: u32, b: Block): u32 {
    var n := 4 * Count(b.list, 16);
    Wrap(if b.up then base + n else base - n)
  }

  /** Where register i of the list is transferred: the lowest register goes to the lowest address. */
  function Slot(list: nat, addr: int, i: nat): int { addr + 4 * Count(list, i) }

  /** Stores the listed registers below n. */
  function StoreList(f: Flat, r: seq<u32>, list: nat, addr: int, n: nat): Flat
    requires n <= |r|
  {
    if n == 0 then f
    else
      var g := StoreList(f, r, list, addr, n - 1);
      if Bit(list, n - 1) then Stored(g, Slot(list, addr, n - 1), Bytes(r[n - 1], 4)) else g
  }

  /** Loads the listed registers below n. */
  function LoadList(f: Flat, r: seq<u32>, list: nat, addr: int, n: nat): (s: seq<u32>)
    requires n <= |r|
    ensures |s| == |r|
  {
    if n == 0 then r
    else
      var s := LoadList(f, r, list, addr, n - 1);
      if Bit(list, n - 1) then s[n - 1 := LoadedWord(f, Slot(list, addr, n - 1))] else s
  }

  /** All sixteen registers as operands. */
  function All(a: Core): seq<u32> { a.r + [ReadPc(a)] }

  /** Does the range of the transfer stay below the end of the address space, and is it word-aligned? */
  predicate Transferable(base: u32, b: Block) {
    WellFormedList(b.list) && base % 4 == 0 && StartAddress(base, b) + 4 * Count(b.list, 16) < TWO32
  }

  /** What an LDM makes of the registers it has loaded: the base is written back last, and a loaded PC branches. */
  function AfterLoad(a: Core, b: Block, r: seq<u32>, newBase: u32): Option<Core>
    requires |r| == 16 && b.rn != 15
  {
    var c := Next(a).(r := if b.wback then r[..15][Index(b.rn) := newBase] else r[..15]);
    if Bit(b.list, 15) then Exchange(c, r[15]) else Some(c)
  }

  /** The effect of LDM or STM on the registers and the memory. */
  function BlockStep(a: Core, f: Flat, b: Block): Option<(Core, Flat)>
    requires |a.r| == 15
  {
    var base := Read(a, b.rn);
    var start := StartAddress(base, b);
    if !Transferable(base, b) || b.rn == 15 then None
    else if b.load then
      match AfterLoad(a, b, LoadList(f, All(a), b.list, start, 16), NewBase(base, b)) {
        case None => None
        case Some(c) => Some((c, f))
      }
    else
      var c := if b.wback then Set(Next(a), b.rn, NewBase(base, b)) else Next(a);
      Some((c, StoreList(f, All(a), b.list, start, 16)))
  }

  /** Instruction addresses stay aligned. */
  lemma BlockStepIsWellFormed(a: Core, f: Flat, b: Block)
    requires WellFormed(a)
    ensures BlockStep(a, f, b).Some? ==> WellFormed(BlockStep(a, f, b).value.0)
  {
    hide Next, Exchange, StoreList, LoadList, Transferable, StartAddress, NewBase, Bit;
    NextIsWellFormed(a);
    if b.rn != 15 {
      var base := Read(a, b.rn);
      var r := LoadList(f, All(a), b.list, StartAddress(base, b), 16);
      ExchangeIsWellFormed(Next(a).(r := if b.wback then r[..15][Index(b.rn) := NewBase(base, b)] else r[..15]), r[15]);
    }
  }

  lemma BlockStepKeepsStatus(a: Core, f: Flat, b: Block)
    requires |a.r| == 15
    ensures BlockStep(a, f, b).Some? ==> KeepsStatus(a, BlockStep(a, f, b).value.0)
  {
    hide StatusWord, Exchange, StoreList, LoadList, Transferable, StartAddress, NewBase, Bit, Wrap, Size;
    if b.rn != 15 {
      var base := Read(a, b.rn);
      var r := LoadList(f, All(a), b.list, StartAddress(base, b), 16);
      ExchangeKeepsStatus(Next(a).(r := if b.wback then r[..15][Index(b.rn) := NewBase(base, b)] else r[..15]), r[15]);
    }
  }

  // ---- Register lists ----------------------------------------------------

  lemma {:induction false} CountMonotone(list: nat, m: nat, n: nat)
    requires m <= n
    ensures Count(list, m) <= Count(list, n)
  {
    if m < n { CountMonotone(list, m, n - 1); }
  }

  lemma {:induction false} CountPositive(list: nat, n: nat)
    requires 0 < list < Pow2(n)
    ensures Count(list, n) > 0
  {
    if n > 0 && !Bit(list, n - 1) {
      TopBitClear(list, Pow2(n - 1));
      CountPositive(list, n - 1);
    }
  }

  lemma TopBitClear(x: nat, p: nat)
    requires p >= 1 && x < 2 * p && (x / p) % 2 != 1
    ensures x < p
  {
    if x >= p { DivUnique(x, p, 1, x - p); }
  }

  /** Slots of different registers of the list do not overlap. */
  lemma SlotsApart(list: nat, addr: int, i: nat, j: nat)
    requires i < j && Bit(list, i)
    ensures Slot(list, addr, i) + 4 <= Slot(list, addr, j)
  {
    CountMonotone(list, i + 1, j);
  }

  // ---- Storing and loading lists -----------------------------------------

  /** Every word of the block lies in a mapping. */
  ghost predicate HeldBlock(f: Flat, addr: int, words: nat) {
    forall k: int :: 0 <= k < words ==> Holds(f, addr + 4 * k, 4)
  }

  /** Memory is the same outside a range, and mapped alike. */
  ghost predicate SameOutside(f: Flat, g: Flat, lo: int, hi: int) {
    && g.home == f.home && g.bytes.Keys == f.bytes.Keys
    && forall a :: a in f.bytes && !(lo <= a < hi) ==> g.bytes[a] == f.bytes[a]
  }

  lemma StoredFrame(f: Flat, addr: int, data: seq<u8>)
    ensures SameOutside(f, Stored(f, addr, data), addr, addr + |data|)
  {
    assert Stored(f, addr, data).bytes.Keys == f.bytes.Keys;
  }

  lemma SameHolds(f: Flat, g: Flat, lo: int, hi: int, addr: int, n: nat)
    requires SameOutside(f, g, lo, hi)
    ensures Holds(g, addr, n) <==> Holds(f, addr, n)
    ensures Holds(f, addr, n) && (addr + n <= lo || hi <= addr) ==> Slice(g, addr, n) == Slice(f, addr, n)
  {
  }

  lemma Widen(f: Flat, g: Flat, h: Flat, lo: int, mid: int, hi: int)
    requires SameOutside(f, g, lo, mid) && SameOutside(g, h, mid, hi) && lo <= mid <= hi
    ensures SameOutside(f, h, lo, hi)
  {
  }

  /** Storing a list changes nothing outside its block. */
  lemma {:induction false} StoreListFrame(f: Flat, r: seq<u32>, list: nat, addr: int, n: nat)
    requires n <= |r|
    ensures SameOutside(f, StoreList(f, r, list, addr, n), addr, Slot(list, addr, n))
  {
    hide Stored, SameOutside, Bit, Bytes;
    if n == 0 {
      SameAsItself(f, addr);
    } else {
      StoreListFrame(f, r, list, addr, n - 1);
      CountStep(list, n - 1);
      var g := StoreList(f, r, list, addr, n - 1);
      var slot := Slot(list, addr, n - 1);
      if Bit(list, n - 1) {
        StoredFrame(g, slot, Bytes(r[n - 1], 4));
        Widen(f, g, Stored(g, slot, Bytes(r[n - 1], 4)), addr, slot, slot + 4);
      }
    }
  }

  lemma SameAsItself(f: Flat, addr: int)
    ensures SameOutside(f, f, addr, addr)
  {
  }

  /** After storing a list, the slot of every listed register holds the register. */
  lemma {:induction false} StoreListSlots(f: Flat, r: seq<u32>, list: nat, addr: int, n: nat, i: nat)
    requires i < n <= |r| && Bit(list, i) && HeldBlock(f, addr, Count(list, n))
    ensures var g := StoreList(f, r, list, addr, n); var slot := Slot(list, addr, i);
      Holds(g, slot, 4) && Slice(g, slot, 4) == Bytes(r[i], 4)
  {
    hide Stored, SameOutside, Bit, Bytes, Holds, Slice;
    var g := StoreList(f, r, list, addr, n - 1);
    CountStep(list, n - 1);
    StoreListFrame(f, r, list, addr, n - 1);
    var slot := Slot(list, addr, n - 1);
    if i == n - 1 {
      assert Holds(f, addr + 4 * Count(list, i), 4);
      SameHolds(f, g, addr, slot, slot, 4);
      StoredHolds(g, slot, Bytes(r[i], 4));
    } else {
      StoreListSlots(f, r, list, addr, n - 1, i);
      SlotsApart(list, addr, i, n - 1);
      if Bit(list, n - 1) {
        StoredFrame(g, slot, Bytes(r[n - 1], 4));
        SameHolds(g, Stored(g, slot, Bytes(r[n - 1], 4)), slot, slot + 4, Slot(list, addr, i), 4);
      }
    }
  }

  lemma StoredHolds(f: Flat, addr: int, data: seq<u8>)
    requires Holds(f, addr, |data|)
    ensures Holds(Stored(f, addr, data), addr, |data|) && Slice(Stored(f, addr, data), addr, |data|) == data
  {
    SliceOfBlit(f, addr, data);
  }

  /** Loading a list loads every listed register from its slot, and leaves the others. */
  lemma {:induction false} LoadListSlots(f: Flat, r: seq<u32>, list: nat, addr: int, n: nat, i: nat)
    requires i < |r| && n <= |r|
    ensures LoadList(f, r, list, addr, n)[i]
      == if i < n && Bit(list, i) then LoadedWord(f, Slot(list, addr, i)) else r[i]
  {
    if n > 0 { LoadListSlots(f, r, list, addr, n - 1, i); }
  }

  // ---- Push and pop ------------------------------------------------------

  function Push(rb: bv4, list: nat): Block { Block(false, true, true, false, rb, list) }

  function Pop(rb: bv4, list: nat): Block { Block(true, false, true, true, rb, list) }

  /** STMDB rb!, list with a word-aligned base above the block it fills. */
  predicate Pushable(a: Core, rb: bv4, list: nat) {
    && |a.r| == 15 && rb != 15 && WellFormedList(list) && !Bit(list, 15) && !Bit(list, Index(rb))
    && a.r[Index(rb)] % 4 == 0 && 4 * Count(list, 16) <= a.r[Index(rb)]
  }

  lemma PushMeans(a: Core, f: Flat, rb: bv4, list: nat)
    requires Pushable(a, rb, list)
    ensures var base := a.r[Index(rb)]; var start := base - 4 * Count(list, 16);
      && BlockStep(a, f, Push(rb, list)) == Some((Set(Next(a), rb, start), StoreList(f, All(a), list, start, 16)))
      && SameOutside(f, StoreList(f, All(a), list, start, 16), start, base)
  {
    hide StoreList, SameOutside, Bit, Index;
    StoreListFrame(f, All(a), list, a.r[Index(rb)] - 4 * Count(list, 16), 16);
  }

  /** What a pop does when the stack pointer has been lowered by the block's size. */
  lemma PopSteps(a: Core, f: Flat, rb: bv4, list: nat, base: u32)
    requires |a.r| == 15 && rb != 15 && WellFormedList(list) && !Bit(list, 15)
    requires base % 4 == 0 && a.r[Index(rb)] == base - 4 * Count(list, 16)
    ensures BlockStep(a, f, Pop(rb, list))
      == Some((Next(a).(r := LoadList(f, All(a), list, a.r[Index(rb)], 16)[..15][Index(rb) := base]), f))
  {
    hide LoadList, Bit, Index, Next, Exchange;
    AfterPop(base, list);
  }

  lemma AfterPop(base: u32, list: nat)
    requires base - 4 * Count(list, 16) >= 0
    ensures Wrap(base - 4 * Count(list, 16) + 4 * Count(list, 16)) == base
    ensures Wrap(base - 4 * Count(list, 16)) == base - 4 * Count(list, 16)
  {
    hide Count;
  }

  /** The four kinds of stacks: what one of the four forms of STM pushes, the opposite form of LDM pops. A form that
      moves the base first leaves it at a word of the block; a form that moves it afterwards starts at the base. */
  lemma FourStacks(base: u32, push: Block, pop: Block)
    requires WellFormedList(push.list) && pop.list == push.list && pop.up == !push.up && pop.pre == !push.pre
    requires 4 * Count(push.list, 16) + 4 <= base && base + 4 * Count(push.list, 16) + 4 < TWO32
    ensures var n := 4 * Count(push.list, 16); var start, after := StartAddress(base, push), NewBase(base, push);
      && after == (if push.up then base + n else base - n)
      && StartAddress(after, pop) == start && NewBase(after, pop) == base
      && (start <= after < start + n <==> push.pre) && (start <= base < start + n <==> !push.pre)
  {
    hide Count, Wrap;
    assert Count(push.list, 16) > 0 by {
      WordBits();
      CountPositive(push.list, 16);
    }
    var n := 4 * Count(push.list, 16);
    WrapSmall(base + n);
    WrapSmall(base - n);
    WrapSmall(base + 4);
    WrapSmall(base - n + 4);
    WrapSmall(base);
    WrapSmall(base + n + 4);
    assert base + n - n == base && base - n + n == base;
  }

  /** Registers are restored by popping what was pushed, whatever happened to them in between: if the base register
      and the block are as the push left them, LDMIA rb!, list gives every listed register and the base their old
      values, and leaves memory and the other registers alone. */
  lemma PushThenPop(a: Core, f: Flat, a': Core, f': Flat, rb: bv4, list: nat)
    requires Pushable(a, rb, list) && |a'.r| == 15
    requires var base := a.r[Index(rb)]; var start := base - 4 * Count(list, 16);
      && HeldBlock(f, start, Count(list, 16))
      && a'.r[Index(rb)] == start
      && forall k: int :: 0 <= k < Count(list, 16) ==>
           && Holds(f', start + 4 * k, 4)
           && LoadedWord(f', start + 4 * k) == LoadedWord(StoreList(f, All(a), list, start, 16), start + 4 * k)
    ensures BlockStep(a', f', Pop(rb, list)).Some?
    ensures var (c, g) := BlockStep(a', f', Pop(rb, list)).value;
      && g == f' && |c.r| == 15 && c == Next(a').(r := c.r)
      && forall i: nat | i < 15 :: c.r[i] == if Bit(list, i) || i == Index(rb) then a.r[i] else a'.r[i]
  {
    hide StoreList, LoadList, Bit, Index, Holds, LoadedWord;
    var base := a.r[Index(rb)];
    var start := base - 4 * Count(list, 16);
    var r := LoadList(f', All(a'), list, start, 16);
    PopSteps(a', f', rb, list, base);
    forall i: nat | i < 15
      ensures i != Index(rb) ==> r[i] == if Bit(list, i) then a.r[i] else a'.r[i]
    {
      LoadListSlots(f', All(a'), list, start, 16, i);
      if Bit(list, i) { RestoresRegister(a, f, list, start, i); }
    }
  }

  /** In particular a push followed by a pop is without effect on the registers. */
  lemma PopUndoesPush(a: Core, f: Flat, rb: bv4, list: nat)
    requires Pushable(a, rb, list) && HeldBlock(f, a.r[Index(rb)] - 4 * Count(list, 16), Count(list, 16))
    ensures BlockStep(a, f, Push(rb, list)).Some?
    ensures var (a', f') := BlockStep(a, f, Push(rb, list)).value;
      |a'.r| == 15 && BlockStep(a', f', Pop(rb, list)) == Some((Next(Next(a)), f'))
  {
    hide BlockStep, StoreList, LoadedWord, Bit, Index, SameOutside;
    var start := a.r[Index(rb)] - 4 * Count(list, 16);
    var a', f' := Set(Next(a), rb, start), StoreList(f, All(a), list, start, 16);
    PushMeans(a, f, rb, list);
    forall k: int | 0 <= k < Count(list, 16)
      ensures Holds(f', start + 4 * k, 4)
    {
      assert Holds(f, start + 4 * k, 4);
      SameHolds(f, f', start, a.r[Index(rb)], start + 4 * k, 4);
    }
    PushThenPop(a, f, a', f', rb, list);
    assert BlockStep(a', f', Pop(rb, list)).value.0.r == a.r;
  }

  lemma RestoresRegister(a: Core, f: Flat, list: nat, start: int, i: nat)
    requires |a.r| == 15 && i < 15 && Bit(list, i) && HeldBlock(f, start, Count(list, 16)) && start % 4 == 0
    ensures Count(list, i) < Count(list, 16)
    ensures LoadedWord(StoreList(f, All(a), list, start, 16), Slot(list, start, i)) == a.r[i]
  {
    hide StoreList, Bit, Holds, Bytes, LoadedWord;
    CountMonotone(list, i + 1, 16);
    CountStep(list, i);
    StoreListSlots(f, All(a), list, start, 16, i);
    AlignedSlot(start, Count(list, i));
    LoadsWord(StoreList(f, All(a), list, start, 16), Slot(list, start, i), a.r[i]);
  }

  lemma LoadsWord(f: Flat, addr: int, w: u32)
    requires addr % 4 == 0 && Holds(f, addr, 4) && Slice(f, addr, 4) == Bytes(w, 4)
    ensures LoadedWord(f, addr) == w
  {
    hide Bytes, LittleWord;
    LittleWordOfBytes(w);
    assert RotateUp(Bytes(w, 4), 0) == Bytes(w, 4);
  }

  lemma AlignedSlot(start: int, k: int)
    requires start % 4 == 0
    ensures (start + 4 * k) % 4 == 0
  {
    SameRemainder(start, k, 4);
  }

  // ---- The interpreter's loops -------------------------------------------

  /** The first register of the list. */
  method FirstRegister(list: nat) returns (temp: nat)
    requires WellFormedList(list)
    ensures temp < 16 && Bit(list, temp) && Count(list, temp) == 0
  {
    hide Bit;
    WordBits();
    CountPositive(list, 16);
    CountStep(list, 0);
    temp := 0;
    while !Bit(list, temp)
      invariant 0 <= temp < 16 && Count(list, temp) == 0
      decreases 16 - temp
    {
      CountStep(list, temp);
      temp := temp + 1;
    }
  }

  lemma WordBits()
    ensures Pow2(16) == 0x1_0000
  {
    Pow2At32();
    Pow2Sum(8, 8);
  }

  lemma StoreStep(f: Flat, r: seq<u32>, list: nat, addr: int, n: nat)
    requires n < 16 == |r|
    ensures Count(list, n + 1) == Count(list, n) + (if Bit(list, n) then 1 else 0) <= Count(list, 16)
    ensures var g := StoreList(f, r, list, addr, n);
      StoreList(f, r, list, addr, n + 1)
        == if Bit(list, n) then Stored(g, addr + 4 * Count(list, n), Bytes(r[n], 4)) else g
    ensures Count(list, n) == 0 ==> StoreList(f, r, list, addr, n) == f
  {
    hide Stored, Bytes;
    CountMonotone(list, n + 1, 16);
    StoreNone(f, r, list, addr, n);
  }

  lemma {:induction false} StoreNone(f: Flat, r: seq<u32>, list: nat, addr: int, n: nat)
    requires n <= |r|
    ensures Count(list, n) == 0 ==> StoreList(f, r, list, addr, n) == f
  {
    if n > 0 { StoreNone(f, r, list, addr, n - 1); }
  }

  /** The stores of STM. */
  method StoreRegisters(reg: array<u32>, mem: Segments, list: nat, start: u32)
    requires reg.Length == 16 && mem.Valid() && WellFormedList(list) && start + 4 * Count(list, 16) < TWO32
    modifies mem`view, mem.mappings, mem.blocks
    ensures mem.Valid() && reg[..] == old(reg[..])
    ensures mem.view == StoreList(old(mem.view), reg[..], list, start, 16)
  {
    hide Bit, Count, Stored, Bytes, StoreList;
    ghost var f, r := mem.view, reg[..];
    var address := start;
    var temp := FirstRegister(list);
    StoreStep(f, r, list, start, temp);
    var _ := mem.Write32(address, reg[temp]);
    temp := temp + 1;
    while temp < 16
      invariant 0 <= temp <= 16 && mem.Valid() && reg[..] == r
      invariant Count(list, temp) > 0 && address == start + 4 * Count(list, temp) - 4
      invariant mem.view == StoreList(f, r, list, start, temp)
    {
      hide mem.Valid;
      StoreStep(f, r, list, start, temp);
      if Bit(list, temp) {
        address := address + 4;
        var _ := mem.Write32(address, reg[temp]);
      }
      temp := temp + 1;
    }
  }

  lemma LoadStep(f: Flat, r: seq<u32>, list: nat, addr: int, n: nat)
    requires n < 16 == |r|
    ensures Count(list, n + 1) == Count(list, n) + (if Bit(list, n) then 1 else 0) <= Count(list, 16)
    ensures var s := LoadList(f, r, list, addr, n);
      LoadList(f, r, list, addr, n + 1) == if Bit(list, n) then s[n := LoadedWord(f, addr + 4 * Count(list, n))] else s
    ensures Count(list, n) == 0 ==> LoadList(f, r, list, addr, n) == r
  {
    hide LoadedWord;
    CountMonotone(list, n + 1, 16);
    LoadNone(f, r, list, addr, n);
  }

  lemma {:induction false} LoadNone(f: Flat, r: seq<u32>, list: nat, addr: int, n: nat)
    requires n <= |r|
    ensures Count(list, n) == 0 ==> LoadList(f, r, list, addr, n) == r
  {
    if n > 0 { LoadNone(f, r, list, addr, n - 1); }
  }

  /** The loads of LDM. */
  method LoadRegisters(reg: array<u32>, mem: Segments, list: nat, start: u32)
    requires reg.Length == 16 && mem.Valid() && WellFormedList(list) && start + 4 * Count(list, 16) < TWO32
    modifies reg, mem.mappings
    ensures mem.Valid()
    ensures reg[..] == LoadList(mem.view, old(reg[..]), list, start, 16)
  {
    hide Bit, Count, LoadedWord, LoadList;
    ghost var f, r := mem.view, reg[..];
    var address := start;
    var temp := FirstRegister(list);
    LoadStep(f, r, list, start, temp);
    var dest := mem.Read32(address);
    SetRegister(reg, mem, temp, dest);
    temp := temp + 1;
    while temp < 16
      invariant 0 <= temp <= 16 && mem.Valid() && mem.view == f
      invariant Count(list, temp) > 0 && address == start + 4 * Count(list, temp) - 4
      invariant reg[..] == LoadList(f, r, list, start, temp)
    {
      hide mem.Valid;
      LoadStep(f, r, list, start, temp);
      if Bit(list, temp) {
        address := address + 4;
        dest := mem.Read32(address);
        SetRegister(reg, mem, temp, dest);
      }
      temp := temp + 1;
    }
  }

  method SetRegister(reg: array<u32>, mem: Segments, i: nat, x: u32)
    requires reg.Length == 16 && mem.Valid() && i < 16
    modifies reg
    ensures mem.Valid() && reg[..] == old(reg[..])[i := x]
  {
    reg[i] := x;
  }

  // ---- The instructions --------------------------------------------------

  /** ARMul_BitList, as Tables.InitBitList fills it. */
  ghost predicate ListTable(table: seq<nat>) {
    |table| == 256 && forall x :: 0 <= x < 256 ==> table[x] == 4 * Count(x, 8)
  }

  /** StoreMult: in ARM state the next fetch will be a non-sequential one. */
  method StoreMult(cpu: Cpu.State, mem: Segments, b: Block, address: u32, wbBase: u32)
    requires cpu.Executing() && mem.Valid()
    requires !b.load && b.rn != 15 && Transferable(Read(cpu.Current(), b.rn), b)
    requires var base := Read(cpu.Current(), b.rn);
      address == StartAddress(base, b) && (b.wback ==> wbBase == NewBase(base, b))
    modifies cpu, cpu.Reg, mem`view, mem.mappings, mem.blocks
    ensures cpu.Ready() && mem.Valid()
    ensures Some((cpu.Between(), mem.view)) == BlockStep(old(cpu.Current()), old(mem.view), b)
  {
    hide Cpu.TableReady, StoreList, Count, Wrap, Segments.Valid, cpu.Ready, cpu.Between, Transferable, Index,
      StartAddress, NewBase;
    ghost var a := cpu.Current();
    if !cpu.TFlag { cpu.NextInstr := cpu.NextInstr | 1; }
    AddressOf(Read(a, b.rn), b);
    StoreRegisters(cpu.Reg, mem, b.list, address);
    assert cpu.Reg[..] == All(a);
    cpu.Sequenced(a);
    if b.wback { cpu.WriteRegister(Index(b.rn), wbBase); }
  }

  lemma AddressOf(base: u32, b: Block)
    requires Transferable(base, b)
    ensures WellFormedList(b.list) && StartAddress(base, b) + 4 * Count(b.list, 16) < TWO32
  {
  }

  /** The end of LoadMult, when the registers r have been loaded over those of a. */
  method FinishLoad(cpu: Cpu.State, b: Block, wbBase: u32, ghost a: Core, ghost r: seq<u32>)
    requires cpu.Valid() && cpu.NextInstr == 0 && WellFormed(a) && b.rn != 15 && |r| == 16
    requires cpu.Reg[..] == r && cpu.pc == a.pc && cpu.Psr() == a.f && cpu.TFlag == a.thumb
    requires cpu.Bits() == a.other && cpu.Cpsr == a.psr
    requires AfterLoad(a, b, r, wbBase).Some? && (!Bit(b.list, 15) ==> r[15] == ReadPc(a))
    modifies cpu, cpu.Reg
    ensures cpu.Ready() && Some(cpu.Between()) == AfterLoad(a, b, r, wbBase)
  {
    hide Cpu.TableReady, Wrap, Bit, Exchange, Index, AlignDown, Size, cpu.Ready, cpu.Between;
    if Bit(b.list, 15) {
      Cpu.ExchangeMeans(Next(a).(r := if b.wback then r[..15][Index(b.rn) := wbBase] else r[..15]), r[15]);
      cpu.WriteR15Branch(cpu.Reg[15]);
    } else {
      cpu.Sequenced(a);
    }
    if b.wback { cpu.WriteRegister(Index(b.rn), wbBase); }
  }

  /** LoadMult: a loaded PC branches, its bit 0 selecting the instruction set; the base is written back last. */
  method LoadMult(cpu: Cpu.State, mem: Segments, b: Block, address: u32, wbBase: u32)
    requires cpu.Executing() && mem.Valid()
    requires b.load && BlockStep(cpu.Current(), mem.view, b).Some?
    requires var base := Read(cpu.Current(), b.rn); address == StartAddress(base, b) && wbBase == NewBase(base, b)
    modifies cpu, cpu.Reg, mem.mappings
    ensures cpu.Ready() && mem.Valid()
    ensures Some((cpu.Between(), mem.view)) == BlockStep(old(cpu.Current()), mem.view, b)
  {
    hide Cpu.TableReady, LoadList, Count, Wrap, Segments.Valid, Bit, AfterLoad, StartAddress, NewBase;
    ghost var a := cpu.Current();
    assert cpu.Reg[..] == All(a);
    LoadRegisters(cpu.Reg, mem, b.list, address);
    KeepsPc(mem.view, All(a), b.list, address);
    FinishLoad(cpu, b, wbBase, a, cpu.Reg[..]);
  }

  lemma KeepsPc(f: Flat, r: seq<u32>, list: nat, addr: int)
    requires |r| == 16
    ensures !Bit(list, 15) ==> LoadList(f, r, list, addr, 16)[15] == r[15]
  {
    LoadListSlots(f, r, list, addr, 16, 15);
  }

  /** The multiple data transfers (cases 0x80 to 0x9f of the interpreter's switch, S bit clear). */
  method ExecuteBlock(cpu: Cpu.State, mem: Segments, bitList: array<nat>, b: Block)
    requires cpu.Executing() && mem.Valid() && ListTable(bitList[..])
    requires BlockStep(cpu.Current(), mem.view, b).Some?
    modifies cpu, cpu.Reg, mem`view, mem.mappings, mem.blocks
    ensures cpu.Ready() && mem.Valid()
    ensures Some((cpu.Between(), mem.view)) == BlockStep(old(cpu.Current()), old(mem.view), b)
  {
    hide Cpu.TableReady, BlockStep, StartAddress, NewBase, Transferable, Count, Segments.Valid, Wrap;
    StepNeeds(cpu.Current(), mem.view, b);
    var lsBase: int := cpu.Reg[Index(b.rn)];
    ListBytes(bitList[..], b.list);
    var n: int := bitList[b.list % 256] + bitList[b.list / 256];
    Addresses(lsBase, b, n);
    var temp := if b.up then Wrap(lsBase + n) else Wrap(lsBase - n);
    var address :=
      if b.up then (if b.pre then Wrap(lsBase + 4) else lsBase) else if b.pre then temp else Wrap(temp + 4);
    if b.load {
      LoadMult(cpu, mem, b, address, temp);
    } else {
      StoreMult(cpu, mem, b, address, temp);
    }
  }

  lemma StepNeeds(a: Core, f: Flat, b: Block)
    requires |a.r| == 15 && BlockStep(a, f, b).Some?
    ensures b.rn != 15 && b.list < 0x1_0000 && Transferable(Read(a, b.rn), b)
  {
    hide LoadList, StoreList, Exchange, StartAddress, NewBase;
  }

  lemma Addresses(base: u32, b: Block, n: int)
    requires n == 4 * Count(b.list, 16)
    ensures NewBase(base, b) == if b.up then Wrap(base + n) else Wrap(base - n)
    ensures StartAddress(base, b) ==
      if b.up then (if b.pre then Wrap(base + 4) else base)
      else if b.pre then Wrap(base - n) else Wrap(Wrap(base - n) + 4)
  {
    hide Wrap, Count;
    WrapAdd(4, base - n);
    WrapSmall(base);
  }
}
