/** Banked registers (src/arm11/armsupp.c) and the user-bank forms of LDM and STM (src/arm11/armemu.c). One array of
    current registers and a matrix of saved ones present the register file of section A2.4 of ARM DDI 0100I. */
module Banks {
  import opened Words
  import opened Memory
  import opened Tables
  import opened BlockTransfer

  const USERBANK := 0
  const FIQBANK := 1
  const IRQBANK := 2
  const SVCBANK := 3
  const ABORTBANK := 4
  const UNDEFBANK := 5
  const DUMMYBANK := 6

  const USER26MODE := 0
  const USER32MODE := 16
  const SVC32MODE := 19

  /** The bank that a processor mode uses. */
  function ModeToBank(mode: nat): (bank: nat)
    ensures bank <= DUMMYBANK
  {
    match mode
    case 0 => USERBANK case 1 => FIQBANK case 2 => IRQBANK case 3 => SVCBANK
    case 16 => USERBANK case 17 => FIQBANK case 18 => IRQBANK case 19 => SVCBANK
    case 23 => ABORTBANK case 27 => UNDEFBANK case 31 => USERBANK
    case _ => DUMMYBANK
  }

  // ---- The register file of the architecture -----------------------------

  /** r0-r7 and the PC exist once, r8-r12 twice (mid, and fiq in FIQ mode), r13 and r14 once per bank. */
  datatype File = File(low: seq<u32>, mid: seq<u32>, fiq: seq<u32>, r13: seq<u32>, r14: seq<u32>, pc: u32)

  predicate WellFormedFile(f: File) {
    |f.low| == 8 && |f.mid| == 5 && |f.fiq| == 5 && |f.r13| == 6 && |f.r14| == 6
  }

  function ZeroFile(): (f: File)
    ensures WellFormedFile(f)
  {
    File(seq(8, _ => 0), seq(5, _ => 0), seq(5, _ => 0), seq(6, _ => 0), seq(6, _ => 0), 0)
  }

  /** Register i as the modes of a bank see it. */
  function Visible(f: File, bank: nat, i: nat): u32
    requires WellFormedFile(f) && bank < DUMMYBANK && i < 16
  {
    if i < 8 then f.low[i]
    else if i < 13 then (if bank == FIQBANK then f.fiq[i - 8] else f.mid[i - 8])
    else if i == 13 then f.r13[bank] else if i == 14 then f.r14[bank] else f.pc
  }

  function Update(f: File, bank: nat, i: nat, x: u32): (g: File)
    requires WellFormedFile(f) && bank < DUMMYBANK && i < 16
    ensures WellFormedFile(g)
  {
    if i < 8 then f.(low := f.low[i := x])
    else if i < 13 then (if bank == FIQBANK then f.(fiq := f.fiq[i - 8 := x]) else f.(mid := f.mid[i - 8 := x]))
    else if i == 13 then f.(r13 := f.r13[bank := x]) else if i == 14 then f.(r14 := f.r14[bank := x]) else f.(pc := x)
  }

  /** Register i is the same storage in both banks. */
  predicate Shared(i: nat, bank: nat, other: nat) {
    bank == other || i < 8 || i == 15 || (i < 13 && bank != FIQBANK && other != FIQBANK)
  }

  /** An update is seen exactly by the banks that share the register, and changes no other register. */
  lemma UpdateIsVisible(f: File, bank: nat, i: nat, x: u32, other: nat, j: nat)
    requires WellFormedFile(f) && bank < DUMMYBANK && other < DUMMYBANK && i < 16 && j < 16
    ensures Visible(Update(f, bank, i, x), other, j)
      == if i == j && Shared(i, bank, other) then x else Visible(f, other, j)
  {
  }

  predicate IsMode(mode: nat) { mode in {16, 17, 18, 19, 23, 27, 31} }

  /** Do two modes share register i? FIQ mode (17) has r8 to r14 of its own; IRQ (18), supervisor (19), abort (23) and
      undefined (27) mode have r13 and r14 of their own; user (16) and system (31) mode share all. */
  predicate ModesShare(i: nat, p: nat, q: nat) {
    p == q || i < 8 || i == 15 || (i < 13 && p != 17 && q != 17) || (p in {16, 31} && q in {16, 31})
  }

  /** What one mode writes, exactly the modes that share the register see. */
  lemma ModeWriteIsVisible(f: File, p: nat, i: nat, x: u32, q: nat, j: nat)
    requires WellFormedFile(f) && IsMode(p) && IsMode(q) && i < 16 && j < 16
    ensures ModeToBank(p) < DUMMYBANK && ModeToBank(q) < DUMMYBANK
    ensures Visible(Update(f, ModeToBank(p), i, x), ModeToBank(q), j)
      == if i == j && ModesShare(i, p, q) then x else Visible(f, ModeToBank(q), j)
  {
    hide Visible, Update;
    UpdateIsVisible(f, ModeToBank(p), i, x, ModeToBank(q), j);
  }

  /** The modes of 26-bit processors are those of the same names, and other numbers are no modes. */
  lemma OtherModes(mode: nat)
    ensures mode < 4 ==> ModeToBank(mode) == ModeToBank(mode + 16)
    ensures ModeToBank(mode) == DUMMYBANK <==> mode >= 4 && !IsMode(mode)
  {
  }

  /** The sixteen registers that the modes of a bank see. */
  function Registers(f: File, bank: nat): (r: seq<u32>)
    requires WellFormedFile(f) && bank < DUMMYBANK
    ensures |r| == 16
  {
    seq(16, i requires 0 <= i < 16 => Visible(f, bank, i))
  }

  /** What replacing the registers of user mode means to the modes of a bank: they see the new values of the registers
      that they share with user mode. */
  lemma WithUserIsVisible(f: File, r: seq<u32>, bank: nat, i: nat)
    requires WellFormedFile(f) && |r| == 16 && bank < DUMMYBANK && i < 16
    ensures Visible(WithUser(f, r), bank, i) == if Shared(i, USERBANK, bank) then r[i] else Visible(f, bank, i)
  {
  }

  /** LDM of user-mode registers, register by register: only the listed ones change, and only where user mode's are
      seen. */
  lemma UserLoadChangesOnlyListed(f: File, m: Flat, list: nat, addr: int, bank: nat, i: nat)
    requires WellFormedFile(f) && bank < DUMMYBANK && i < 16
    ensures Visible(WithUser(f, LoadList(m, Registers(f, USERBANK), list, addr, 16)), bank, i)
      == if Bit(list, i) && Shared(i, USERBANK, bank) then LoadedWord(m, Slot(list, addr, i)) else Visible(f, bank, i)
  {
    hide LoadList, LoadedWord, Bit, Slot;
    LoadListSlots(m, Registers(f, USERBANK), list, addr, 16, i);
    WithUserIsVisible(f, LoadList(m, Registers(f, USERBANK), list, addr, 16), bank, i);
  }

  /** What the current mode finds in the base after an LDM of user-mode registers r with write-back of x: the new base
      exactly if the register is shared with user mode. */
  lemma WriteBackReachesBase(f: File, r: seq<u32>, bank: nat, rn: nat, x: u32)
    requires WellFormedFile(f) && |r| == 16 && bank < DUMMYBANK && rn < 15
    ensures Visible(Update(WithUser(f, r), USERBANK, rn, x), bank, rn)
      == if Shared(rn, USERBANK, bank) then x else Visible(f, bank, rn)
  {
    hide Visible, Update, WithUser;
    UpdateIsVisible(WithUser(f, r), USERBANK, rn, x, bank, rn);
    WithUserIsVisible(f, r, bank, rn);
  }

  /** In supervisor mode a written-back stack pointer is lost, whatever is loaded. */
  lemma StackPointerIsLost(f: File, r: seq<u32>, x: u32)
    requires WellFormedFile(f) && |r| == 16 && Visible(f, SVCBANK, 13) != x
    ensures Visible(Update(WithUser(f, r), USERBANK, 13, x), SVCBANK, 13) != x
  {
    hide Visible, Update, WithUser;
    WriteBackReachesBase(f, r, SVCBANK, 13, x);
  }

  /** The file with all sixteen registers of user mode replaced. */
  function WithUser(f: File, r: seq<u32>): (g: File)
    requires WellFormedFile(f) && |r| == 16
    ensures WellFormedFile(g)
  {
    File(r[..8], r[8..13], f.fiq, f.r13[USERBANK := r[13]], f.r14[USERBANK := r[14]], r[15])
  }

  // ---- The emulator's registers ------------------------------------------

  class Registry {
    const Reg: array<u32>
    const RegBank: array2<u32>
    var Bank: nat
    var Mode: nat

    /** ARMul_NewState and ARMul_Reset: supervisor mode, with every register of every bank zero. */
    constructor ()
      ensures Valid() && fresh(Reg) && fresh(RegBank) && Mode == SVC32MODE && Bank == SVCBANK
      ensures View() == ZeroFile()
    {
      Reg := new u32[16](_ => 0);
      RegBank := new u32[7, 16]((_, _) => 0);
      Mode, Bank := SVC32MODE, SVCBANK;
      new;
      ZeroView();
    }

    lemma ZeroView()
      requires Sized() && Bank == SVCBANK
      requires forall i :: 0 <= i < 16 ==> Reg[i] == 0
      requires forall b, i :: 0 <= b < 7 && 0 <= i < 16 ==> RegBank[b, i] == 0
      ensures View() == ZeroFile()
    {
    }

    ghost predicate Valid()
      reads this
    {
      && Reg.Length == 16 && RegBank.Length0 == 7 && RegBank.Length1 == 16
      && Bank == ModeToBank(Mode) && Bank < DUMMYBANK
    }

    ghost predicate Sized() { Reg.Length == 16 && RegBank.Length0 == 7 && RegBank.Length1 == 16 }

    /** r8-r12 as saved for a bank. */
    ghost function Row(bank: nat): (s: seq<u32>)
      requires Sized() && bank < 7
      reads RegBank
    {
      [RegBank[bank, 8], RegBank[bank, 9], RegBank[bank, 10], RegBank[bank, 11], RegBank[bank, 12]]
    }

    /** r13 or r14 as saved for each bank. */
    ghost function Column(i: nat): (s: seq<u32>)
      requires Sized() && i < 16
      reads RegBank
    {
      [RegBank[0, i], RegBank[1, i], RegBank[2, i], RegBank[3, i], RegBank[4, i], RegBank[5, i]]
    }

    /** The architecture's register file, read off the current registers and the saved ones. */
    ghost function View(): (f: File)
      requires Sized() && Bank < DUMMYBANK
      reads this, Reg, RegBank
      ensures WellFormedFile(f)
    {
      File(Reg[..8],
           if Bank == FIQBANK then Row(USERBANK) else Reg[8..13],
           if Bank == FIQBANK then Reg[8..13] else Row(FIQBANK),
           Column(13)[Bank := Reg[13]], Column(14)[Bank := Reg[14]], Reg[15])
    }

    /** What the current mode sees is in the current registers. */
    lemma AllVisible()
      requires Sized() && Bank < DUMMYBANK
      ensures Reg[..] == Registers(View(), Bank)
    {
    }

    /** `for (i = lo; i < hi; i++) RegBank[bank][i] = Reg[i]` */
    method Save(bank: nat, lo: nat, hi: nat)
      requires Sized() && bank < 7 && lo <= hi <= 16
      modifies RegBank
      ensures forall b, i :: 0 <= b < 7 && 0 <= i < 16 ==>
        RegBank[b, i] == if b == bank && lo <= i < hi then Reg[i] else old(RegBank[b, i])
    {
      for k := lo to hi
        invariant forall b, i :: 0 <= b < 7 && 0 <= i < 16 ==>
          RegBank[b, i] == if b == bank && lo <= i < k then Reg[i] else old(RegBank[b, i])
      {
        RegBank[bank, k] := Reg[k];
      }
    }

    /** `for (i = lo; i < hi; i++) Reg[i] = RegBank[bank][i]` */
    method Restore(bank: nat, lo: nat, hi: nat)
      requires Sized() && bank < 7 && lo <= hi <= 16
      modifies Reg
      ensures forall i :: 0 <= i < 16 ==> Reg[i] == if lo <= i < hi then RegBank[bank, i] else old(Reg[i])
    {
      for k := lo to hi
        invariant forall i :: 0 <= i < 16 ==> Reg[i] == if lo <= i < k then RegBank[bank, i] else old(Reg[i])
      {
        Reg[k] := RegBank[bank, k];
      }
    }

    method SaveOld(oldbank: nat, newbank: nat)
      requires Sized() && oldbank < DUMMYBANK
      modifies RegBank
      ensures Row(FIQBANK) == if oldbank == FIQBANK then Reg[8..13] else old(Row(FIQBANK))
      ensures Row(USERBANK) == if oldbank != FIQBANK && newbank == FIQBANK then Reg[8..13] else old(Row(USERBANK))
      ensures Column(13) == old(Column(13))[oldbank := Reg[13]] && Column(14) == old(Column(14))[oldbank := Reg[14]]
    {
      if oldbank == FIQBANK {
        Save(FIQBANK, 8, 15);
      } else {
        if newbank == FIQBANK { Save(USERBANK, 8, 13); }
        Save(oldbank, 13, 15);
      }
    }

    method RestoreNew(oldbank: nat, newbank: nat)
      requires Sized() && newbank < DUMMYBANK && oldbank != newbank
      modifies Reg
      ensures Reg[..8] == old(Reg[..8]) && Reg[15] == old(Reg[15])
      ensures Reg[8..13] ==
        if newbank == FIQBANK then Row(FIQBANK) else if oldbank == FIQBANK then Row(USERBANK) else old(Reg[8..13])
      ensures Reg[13] == Column(13)[newbank] && Reg[14] == Column(14)[newbank]
    {
      if newbank == FIQBANK {
        Restore(FIQBANK, 8, 15);
      } else {
        if oldbank == FIQBANK { Restore(USERBANK, 8, 13); }
        Restore(newbank, 13, 15);
      }
    }

    /** Saves the registers of the old bank and fetches those of the new one. Between the banks of the architecture
        this is invisible: every register keeps its value in every bank. */
    method SwitchMode(oldmode: nat, newmode: nat)
      requires Sized() && Bank == ModeToBank(oldmode) < DUMMYBANK && ModeToBank(newmode) < DUMMYBANK
      modifies this`Bank, Reg, RegBank
      ensures Bank == ModeToBank(newmode) && View() == old(View())
    {
      hide Row, Column;
      var oldbank, newbank := ModeToBank(oldmode), ModeToBank(newmode);
      Bank := newbank;
      if oldbank != newbank {
        SaveOld(oldbank, newbank);
        RestoreNew(oldbank, newbank);
      }
    }

    // ---- Runs ------------------------------------------------------------

    method Write(i: nat, x: u32)
      requires Sized() && Bank < DUMMYBANK && i < 16
      modifies Reg
      ensures View() == Update(old(View()), Bank, i, x)
    {
      Reg[i] := x;
      assert View() == Update(old(View()), Bank, i, x);
    }

    /** Any sequence of mode changes and register writes acts on the architecture's register file. */
    method Replay(events: seq<Event>)
      requires Valid() && AllProper(events)
      modifies this`Bank, this`Mode, Reg, RegBank
      ensures Valid() && (View(), Mode) == After(old(View()), old(Mode), events)
      ensures Reg[..] == Registers(View(), Bank)
    {
      var i := 0;
      while i < |events|
        invariant 0 <= i <= |events| && Valid() && (View(), Mode) == After(old(View()), old(Mode), events[..i])
        decreases |events| - i
      {
        hide Update, WellFormedFile, View;
        assert events[..i + 1][..i] == events[..i];
        match events[i] {
          case Enter(mode) =>
            SwitchMode(Mode, mode);
            Mode := mode;
          case Assign(r, x) =>
            Write(r, x);
        }
        i := i + 1;
      }
      assert events[..i] == events;
      AllVisible();
    }

    // ---- The user-bank transfers -----------------------------------------

    /** STM with the S bit (StoreSMult): the stored values are those of user mode, and the register file is as before,
        up to the written-back base, which belongs to the current mode. */
    method StoreSMult(mem: Segments, list: nat, address: u32, wback: bool, rn: nat, wbBase: u32)
      requires Valid() && mem.Valid() && WellFormedList(list) && address + 4 * Count(list, 16) < TWO32 && rn < 15
      modifies this`Bank, Reg, RegBank, mem`view, mem.mappings, mem.blocks
      ensures Valid() && mem.Valid()
      ensures mem.view == StoreList(old(mem.view), Registers(old(View()), USERBANK), list, address, 16)
      ensures View() == if wback then Update(old(View()), Bank, rn, wbBase) else old(View())
    {
      hide View, Update, WellFormedFile, Registers, StoreList, Count, Segments.Valid;
      if Bank != USERBANK {
        SwitchMode(Mode, USER26MODE);
      }
      AllVisible();
      StoreRegisters(Reg, mem, list, address);
      if Mode != USER26MODE && Mode != USER32MODE {
        SwitchMode(USER26MODE, Mode);
      }
      if wback { Write(rn, wbBase); }
    }

    /** LDM with the S bit and without the PC (LoadSMult): exactly the listed registers of user mode are loaded. A base
        that is written back is written while the user bank is still switched in, so it is user mode's as well: the
        current mode does not see it in a register of its own. */
    method LoadSMult(mem: Segments, list: nat, address: u32, wback: bool, rn: nat, wbBase: u32)
      requires Valid() && mem.Valid() && WellFormedList(list) && address + 4 * Count(list, 16) < TWO32 && rn < 15
      requires !Bit(list, 15)
      modifies this`Bank, Reg, RegBank, mem.mappings
      ensures Valid() && mem.Valid()
      ensures
        var loaded := WithUser(old(View()), LoadList(mem.view, Registers(old(View()), USERBANK), list, address, 16));
        View() == if wback then Update(loaded, USERBANK, rn, wbBase) else loaded
      ensures wback ==> Reg[rn] == if Shared(rn, USERBANK, Bank) then wbBase else old(Reg[rn])
    {
      hide View, Update, Visible, Shared, WellFormedFile, Registers, LoadList, Count, Segments.Valid, WithUser;
      ghost var before := View();
      Seen(rn);
      if Bank != USERBANK {
        SwitchMode(Mode, USER26MODE);
      }
      AllVisible();
      ghost var f := View();
      label Before:
      LoadRegisters(Reg, mem, list, address);
      Loaded@Before(f);
      if wback { Write(rn, wbBase); }
      if Mode != USER26MODE && Mode != USER32MODE {
        SwitchMode(USER26MODE, Mode);
      }
      Seen(rn);
      ghost var r := LoadList(mem.view, Registers(before, USERBANK), list, address, 16);
      WriteBackReachesBase(before, r, Bank, rn, wbBase);
    }

    lemma Seen(i: nat)
      requires Sized() && Bank < DUMMYBANK && i < 16
      ensures Reg[i] == Visible(View(), Bank, i)
    {
    }

    /** Registers of user mode that change while it is current change in the file, and nothing else does. */
    twostate lemma Loaded(f: File)
      requires Sized() && Bank == USERBANK && old(Bank) == Bank && f == old(View()) && unchanged(RegBank)
      ensures View() == WithUser(f, Reg[..])
    {
    }
  }

  datatype Event = Enter(mode: nat) | Assign(i: nat, x: u32)

  predicate Proper(e: Event) {
    match e
    case Enter(mode) => ModeToBank(mode) < DUMMYBANK
    case Assign(i, _) => i < 16
  }

  predicate AllProper(events: seq<Event>) { forall k :: 0 <= k < |events| ==> Proper(events[k]) }

  /** The register file and the mode after a sequence of events. */
  ghost function After(f: File, mode: nat, events: seq<Event>): (r: (File, nat))
    requires WellFormedFile(f) && ModeToBank(mode) < DUMMYBANK && AllProper(events)
    ensures WellFormedFile(r.0) && ModeToBank(r.1) < DUMMYBANK
  {
    if events == [] then (f, mode)
    else
      var last := |events| - 1;
      var (g, m) := After(f, mode, events[..last]);
      match events[last]
      case Enter(next) => (g, next)
      case Assign(i, x) => (Update(g, ModeToBank(m), i, x), m)
  }
}
