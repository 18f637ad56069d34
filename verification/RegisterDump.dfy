/** The debugger's register dump ('g') and its inverse ('G'), src/gdb/gdbstub.c and src/gdb/gdbstubchelper.c. */
module RegisterDump {
  import opened Words
  import opened Memory
  import opened Packets
  import opened Threads
  import Processors
  import Cpu

  const ZERO: u8 := 0x30
  const PADDING := 200          // eight floating-point registers of 24 digits and their status
  const DUMP_SIZE := 336

  /** A byte as two digits. */
  function HexByte(b: u8): (s: seq<u8>)
    ensures |s| == 2
  {
    [HexChar(b / 16), HexChar(b % 16)]
  }

  /** A word, lowest byte first. */
  function HexWord(w: u32): (s: seq<u8>)
    ensures |s| == 8
  {
    HexByte(Byte(w)) + HexByte(Byte(w / 256)) + HexByte(Byte(w / 0x1_0000)) + HexByte(Byte(w / 0x100_0000))
  }

  function HexWords(regs: seq<u32>): (s: seq<u8>)
    ensures |s| == 8 * |regs|
  {
    if regs == [] then [] else HexWords(regs[..|regs| - 1]) + HexWord(regs[|regs| - 1])
  }

  function Zeros(n: nat): (s: seq<u8>)
    ensures |s| == n
  {
    seq(n, _ => ZERO)
  }

  function Dump(regs: seq<u32>, cpsr: u32): (s: seq<u8>)
    requires |regs| == 16
    ensures |s| == DUMP_SIZE
  {
    HexWords(regs) + Zeros(PADDING) + HexWord(cpsr)
  }

  /** hex2mem for one byte; a character that is no digit counts as -1. */
  function Unhex(high: u8, low: u8): u8 {
    if Hex(low) < 0 then 255 else Hex(high) * 16 % 256 + Hex(low)
  }

  function ParseWord(s: seq<u8>): u32
    requires |s| == 8
  {
    LittleWord([Unhex(s[0], s[1]), Unhex(s[2], s[3]), Unhex(s[4], s[5]), Unhex(s[6], s[7])])
  }

  function ParseWords(s: seq<u8>, n: nat): (regs: seq<u32>)
    requires 8 * n <= |s|
    ensures |regs| == n
  {
    if n == 0 then [] else ParseWords(s, n - 1) + [ParseWord(s[8 * (n - 1)..8 * n])]
  }

  lemma UnhexOfByte(b: u8)
    ensures Unhex(HexByte(b)[0], HexByte(b)[1]) == b
  {
    HexOfChar(b / 16);
    HexOfChar(b % 16);
  }

  lemma ParsesWord(w: u32)
    ensures ParseWord(HexWord(w)) == w
  {
    hide HexByte, Unhex, Byte, LittleWord;
    UnhexOfByte(Byte(w));
    UnhexOfByte(Byte(w / 256));
    UnhexOfByte(Byte(w / 0x1_0000));
    UnhexOfByte(Byte(w / 0x100_0000));
    FourBytes(w);
    LittleWordOfBytes(w);
  }

  lemma {:induction false} ParsesWords(regs: seq<u32>, rest: seq<u8>)
    ensures ParseWords(HexWords(regs) + rest, |regs|) == regs
  {
    hide HexWord, ParseWord, HexWords, ParseWords;
    if regs == [] {
      NoWords(rest);
    } else {
      var q, w := regs[..|regs| - 1], regs[|regs| - 1];
      var s := HexWords(regs) + rest;
      NextWord(regs, |q|);
      assert s == HexWords(q) + (HexWord(w) + rest) by { assert regs[..|q| + 1] == regs; }
      ParsesWords(q, HexWord(w) + rest);
      NextParsed(s, |q|);
      assert s[8 * |q|..8 * |regs|] == HexWord(w);
      ParsesWord(w);
    }
  }

  lemma NoWords(s: seq<u8>)
    ensures HexWords([]) == [] && ParseWords(s, 0) == []
  {
  }

  lemma NextWord(regs: seq<u32>, i: nat)
    requires i < |regs|
    ensures HexWords(regs[..i + 1]) == HexWords(regs[..i]) + HexWord(regs[i])
  {
    assert regs[..i + 1][..i] == regs[..i];
  }

  lemma NextParsed(s: seq<u8>, n: nat)
    requires 8 * (n + 1) <= |s|
    ensures ParseWords(s, n + 1) == ParseWords(s, n) + [ParseWord(s[8 * n..8 * (n + 1)])]
  {
  }

  /** A dump is read back as the values that were dumped. */
  lemma DumpIsParsed(regs: seq<u32>, cpsr: u32)
    requires |regs| == 16
    ensures ParseWords(Dump(regs, cpsr), 16) == regs && ParseWord(Dump(regs, cpsr)[DUMP_SIZE - 8..]) == cpsr
  {
    hide HexWord, ParseWord, HexWords, ParseWords;
    assert Dump(regs, cpsr) == HexWords(regs) + (Zeros(PADDING) + HexWord(cpsr));
    ParsesWords(regs, Zeros(PADDING) + HexWord(cpsr));
    ParsesWord(cpsr);
    assert Dump(regs, cpsr)[DUMP_SIZE - 8..] == HexWord(cpsr);
  }

  // ---- The digits of a dump ----------------------------------------------

  /** The digits 0 to 9 and a to f. */
  const DIGITS: seq<u8> :=
    [0x30, 0x31, 0x32, 0x33, 0x34, 0x35, 0x36, 0x37, 0x38, 0x39, 0x61, 0x62, 0x63, 0x64, 0x65, 0x66]

  /** Do two digits show the byte of the word that starts at bit 0, 8, 16 or 24 (d is that power of two)? */
  predicate Shows(s: seq<u8>, w: u32, d: nat)
    requires |s| == 2 && d > 0
  {
    s == [DIGITS[w / d % 256 / 16], DIGITS[w / d % 256 % 16]]
  }

  /** Do eight digits show the word, with its lowest byte first? */
  predicate ShowsWord(s: seq<u8>, w: u32) {
    |s| == 8 && Shows(s[..2], w, 1) && Shows(s[2..4], w, 0x100) && Shows(s[4..6], w, 0x1_0000)
    && Shows(s[6..], w, 0x100_0000)
  }

  lemma ByteShows(w: u32, d: nat)
    requires d > 0
    ensures Shows(HexByte(Byte(w / d)), w, d)
  {
  }

  lemma WordShows(w: u32)
    ensures ShowsWord(HexWord(w), w)
  {
    hide Shows, HexByte, Byte;
    ByteShows(w, 1);
    ByteShows(w, 0x100);
    ByteShows(w, 0x1_0000);
    ByteShows(w, 0x100_0000);
    var s := HexWord(w);
    assert w / 1 == w && s[..2] == HexByte(Byte(w)) && s[2..4] == HexByte(Byte(w / 0x100));
    assert s[4..6] == HexByte(Byte(w / 0x1_0000)) && s[6..] == HexByte(Byte(w / 0x100_0000));
  }

  lemma {:induction false} WordsShow(regs: seq<u32>, i: nat)
    requires i < |regs|
    ensures ShowsWord(HexWords(regs)[8 * i..8 * i + 8], regs[i])
  {
    hide HexWord, ShowsWord;
    var last := |regs| - 1;
    if i == last {
      WordShows(regs[last]);
      assert HexWords(regs)[8 * i..8 * i + 8] == HexWord(regs[last]);
    } else {
      WordsShow(regs[..last], i);
      assert HexWords(regs)[8 * i..8 * i + 8] == HexWords(regs[..last])[8 * i..8 * i + 8];
    }
  }

  /** The dump shows r0 to r15 one after the other, then zeros in place of floating-point registers, then the status
      register. */
  lemma DumpShows(regs: seq<u32>, cpsr: u32, i: nat)
    requires |regs| == 16 && i < 16
    ensures var s := Dump(regs, cpsr);
      && ShowsWord(s[8 * i..8 * i + 8], regs[i]) && ShowsWord(s[328..], cpsr)
      && s[128..328] == seq(200, _ => 0x30)
  {
    hide HexWord, HexWords, ShowsWord;
    WordsShow(regs, i);
    WordShows(cpsr);
    assert Dump(regs, cpsr)[8 * i..8 * i + 8] == HexWords(regs)[8 * i..8 * i + 8];
    assert Dump(regs, cpsr)[128..328] == Zeros(PADDING);
    assert Dump(regs, cpsr)[328..] == HexWord(cpsr);
  }

  // ---- The stub's loops --------------------------------------------------

  /** Eight digits at `at`. */
  method PutWord(out: array<u8>, at: nat, w: u32)
    requires at + 8 <= out.Length
    modifies out
    ensures out[..at] == old(out[..at]) && out[at..at + 8] == HexWord(w) && out[at + 8..] == old(out[at + 8..])
  {
    hide HexChar;
    Nibbles(w);
    var index := at;
    out[index], out[index + 1] := HexChar(w / 0x10 % 16), HexChar(w % 16);
    out[index + 2], out[index + 3] := HexChar(w / 0x1000 % 16), HexChar(w / 0x100 % 16);
    out[index + 4], out[index + 5] := HexChar(w / 0x10_0000 % 16), HexChar(w / 0x1_0000 % 16);
    out[index + 6], out[index + 7] := HexChar(w / 0x1000_0000 % 16), HexChar(w / 0x100_0000 % 16);
  }

  lemma Nibbles(w: u32)
    ensures w / 0x10 % 16 == Byte(w) / 16 && w % 16 == Byte(w) % 16
    ensures w / 0x1000 % 16 == Byte(w / 256) / 16 && w / 0x100 % 16 == Byte(w / 256) % 16
    ensures w / 0x10_0000 % 16 == Byte(w / 0x1_0000) / 16 && w / 0x1_0000 % 16 == Byte(w / 0x1_0000) % 16
    ensures w / 0x1000_0000 % 16 == Byte(w / 0x100_0000) / 16 && w / 0x100_0000 % 16 == Byte(w / 0x100_0000) % 16
  {
    DivDiv(w, 0x100, 16);
    DivDiv(w, 0x1_0000, 16);
    DivDiv(w, 0x100_0000, 16);
    NibblesOf(w);
    NibblesOf(w / 0x100);
    NibblesOf(w / 0x1_0000);
    NibblesOf(w / 0x100_0000);
  }

  lemma NibblesOf(x: nat)
    ensures x / 16 % 16 == Byte(x) / 16 && x % 16 == Byte(x) % 16
  {
    var q, h, l := x / 256, x % 256 / 16, x % 256 % 16;
    DivUnique(x, 16, 16 * q + h, l);
    DivUnique(16 * q + h, 16, q, h);
  }

  /** 'g' */
  method DumpRegisters(out: array<u8>, regs: seq<u32>, cpsr: u32)
    requires DUMP_SIZE <= out.Length && |regs| == 16
    modifies out
    ensures out[..DUMP_SIZE] == Dump(regs, cpsr)
  {
    hide HexWord, HexWords;
    var i := 0;
    NoWords([]);
    while i < 16
      invariant 0 <= i <= 16 && out[..8 * i] == HexWords(regs[..i])
    {
      PutWord(out, 8 * i, regs[i]);
      NextWord(regs, i);
      assert out[..8 * (i + 1)] == out[..8 * i] + out[8 * i..8 * i + 8];
      i := i + 1;
    }
    assert regs[..16] == regs;
    var j := 0;
    while j < PADDING
      invariant 0 <= j <= PADDING && out[..128] == HexWords(regs) && out[128..128 + j] == Zeros(j)
    {
      out[128 + j] := ZERO;
      j := j + 1;
    }
    PutWord(out, 328, cpsr);
    assert out[..DUMP_SIZE] == out[..328][..128] + out[..328][128..] + out[328..DUMP_SIZE];
  }

  /** 'G' */
  method LoadDump(text: seq<u8>) returns (regs: seq<u32>, cpsr: u32)
    requires |text| >= DUMP_SIZE
    ensures regs == ParseWords(text, 16) && cpsr == ParseWord(text[DUMP_SIZE - 8..DUMP_SIZE])
  {
    hide ParseWord;
    regs := [];
    var rx := 0;
    var i := 0;
    while i < 16
      invariant 0 <= i <= 16 && rx == 8 * i && regs == ParseWords(text, i)
    {
      regs := regs + [ParseWord(text[rx..rx + 8])];
      rx := rx + 8;
      i := i + 1;
    }
    rx := rx + 8 * (96 / 8 * 2);
    rx := rx + 8;
    cpsr := ParseWord(text[rx..rx + 8]);
  }

  // ---- The registers of a thread -----------------------------------------

  /** The sixteen words that the debugger writes: of the thread on the CPU the registers, of another one its saved
      registers and its saved PC. */
  function Writable(k: Context, live: bool): (regs: seq<u32>)
    requires Sized(k)
    ensures |regs| == 16
  {
    k.r + [k.sp, k.lr, if live then k.r15 else k.pc]
  }

  /** The context with these words. */
  function WithWritable(k: Context, live: bool, regs: seq<u32>): (j: Context)
    requires Sized(k) && |regs| == 16
    ensures Sized(j)
  {
    var j := k.(r := regs[..13], sp := regs[13], lr := regs[14]);
    if live then j.(r15 := regs[15]) else j.(pc := regs[15])
  }

  /** The sixteen words that the debugger reads: on the CPU, r15 is taken to be one instruction ahead unless the
      pipeline is being refilled. */
  function Readable(k: Context, live: bool): (regs: seq<u32>)
    requires Sized(k)
    ensures |regs| == 16
  {
    var regs := Writable(k, live);
    if live && k.mode < Cpu.PRIMEPIPE then regs[15 := Wrap(k.r15 - 4)] else regs
  }

  /** The debugger is shown the thread's own r0 to r14, and for a thread on the CPU in ARM state its next instruction,
      exactly unless it has stopped right after an instruction that moved the pipeline by itself: then it is shown the
      instruction after that. */
  lemma ShowsThread(k: Context, live: bool)
    requires Processors.Resumable(k)
    ensures Readable(k, live)[..15] == Processors.CoreOf(k).r
    ensures !k.t ==>
      (Readable(k, true)[15] == Processors.CoreOf(k).pc <==> !(Cpu.PCINCED <= k.mode < Cpu.PRIMEPIPE))
  {
    hide Wrap;
    if k.mode < Cpu.PRIMEPIPE && !k.t { Before(k.pc); }
  }

  lemma Before(pc: u32)
    ensures Wrap(Wrap(pc + 8) - 4) == Wrap(pc + 4) && Wrap(Wrap(pc + 12) - 4) != Wrap(pc + 4)
  {
    WrapAdd(-4, pc + 8);
    WrapAdd(-4, pc + 12);
  }

  /** One register written: the status word of the thread on the CPU is not. */
  function Written(k: Context, live: bool, n: nat, x: u32): (j: Context)
    requires Sized(k)
    ensures Sized(j)
  {
    if n < 16 then WithWritable(k, live, Writable(k, live)[n := x])
    else if n == 16 && !live then k.(cpsr := x)
    else k
  }

  /** All of them written. */
  function Restored(k: Context, live: bool, regs: seq<u32>, cpsr: u32): Context
    requires Sized(k) && |regs| == 16
  {
    Written(WithWritable(k, live, regs), live, 16, cpsr)
  }

  lemma WritableLaws(k: Context, live: bool, regs: seq<u32>, more: seq<u32>)
    requires Sized(k) && |regs| == 16 && |more| == 16
    ensures WithWritable(k, live, Writable(k, live)) == k
    ensures Writable(WithWritable(k, live, regs), live) == regs
    ensures WithWritable(WithWritable(k, live, regs), live, more) == WithWritable(k, live, more)
  {
  }

  /** Writing back the dump of a thread restores it exactly, unless the thread is on the CPU in sequential execution:
      then r15 has moved, since it is written as it was read. */
  lemma WriteBackRestores(k: Context, live: bool)
    requires Sized(k)
    ensures var text := Dump(Readable(k, live), k.cpsr);
      var j := Restored(k, live, ParseWords(text, 16), ParseWord(text[DUMP_SIZE - 8..]));
      j == k <==> !(live && k.mode < Cpu.PRIMEPIPE)
  {
    hide Dump, ParseWords, ParseWord, Wrap;
    DumpIsParsed(Readable(k, live), k.cpsr);
    WritableLaws(k, live, Readable(k, live), Readable(k, live));
    Moves(k.r15);
    assert Restored(k, live, Readable(k, live), k.cpsr) == WithWritable(k, live, Readable(k, live));
    assert WithWritable(k, live, Readable(k, live)) == k ==> Readable(k, live) == Writable(k, live);
  }

  lemma Moves(x: u32)
    ensures Wrap(x - 4) != x
  {
  }

  /** Whatever has happened to the thread since the dump k, writing it back gives it the dumped registers; the status
      word only if the thread is not on the CPU. */
  lemma WriteBackLater(k: Context, j: Context, live: bool)
    requires Sized(k) && Sized(j)
    ensures var text := Dump(Readable(k, live), k.cpsr);
      var i := Restored(j, live, ParseWords(text, 16), ParseWord(text[DUMP_SIZE - 8..]));
      && i.r == k.r && i.sp == k.sp && i.lr == k.lr && i.cpsr == (if live then j.cpsr else k.cpsr)
      && (if live then i.r15 == Readable(k, live)[15] && i.pc == j.pc else i.pc == k.pc && i.r15 == j.r15)
  {
    hide Dump, ParseWords, ParseWord, Wrap;
    DumpIsParsed(Readable(k, live), k.cpsr);
  }

  /** A thread on the CPU that the dump does not restore: sequential execution at any address. */
  lemma SomeMove(k: Context)
    requires Sized(k) && k.mode == 0 && k.r15 == 0x0010_0008
    ensures var text := Dump(Readable(k, true), k.cpsr);
      Restored(k, true, ParseWords(text, 16), ParseWord(text[DUMP_SIZE - 8..])).r15 == 0x0010_0004
  {
    hide Dump, ParseWords, ParseWord;
    DumpIsParsed(Readable(k, true), k.cpsr);
  }

  /** read_cpu_reg; there are seventeen registers. */
  method ReadRegister<H>(sched: Scheduler<H>, id: nat, n: nat) returns (x: u32)
    requires sched.Valid() && id < sched.numThreads && AllProper(sched.View())
    ensures var k := sched.View()[id].ctx;
      x == if n > 16 then 0 else if n == 16 then k.cpsr else Readable(k, id == sched.currentThread)[n]
  {
    sched.ViewIsProper();
    if id == sched.currentThread {
      x := ReadLive(sched.s, n);
    } else if n > 16 {
      x := 0;
    } else {
      var k := sched.threads[id].ctx;
      x := if n <= 12 then k.r[n] else if n == 13 then k.sp else if n == 14 then k.lr
           else if n == 15 then k.pc else k.cpsr;
    }
  }

  method ReadLive(s: Live, n: nat) returns (x: u32)
    requires s.Valid()
    ensures x == if n > 16 then 0 else if n == 16 then s.Capture().cpsr else Readable(s.Capture(), true)[n]
  {
    if n == 16 { return s.cpu.Cpsr; }
    if n > 16 { return 0; }
    var r: int := s.cpu.Reg[n];
    x := if n == 15 && s.cpu.NextInstr < Cpu.PRIMEPIPE then Wrap(r - 4) else r;
  }

  /** arm11_SetR */
  method WriteLive(s: Live, n: nat, x: u32)
    requires s.Valid()
    modifies s.cpu.Reg
    ensures s.Capture() == Written(old(s.Capture()), true, n, x)
  {
    if n >= 16 { return; }
    s.cpu.Reg[n] := x;
  }

  /** One register of a saved thread; index 13 is where the stack pointer follows the general registers. */
  function WriteSaved(k: Context, n: nat, x: u32): (j: Context)
    requires Sized(k)
    ensures j == Written(k, false, n, x)
  {
    if n <= 12 then k.(r := k.r[n := x]) else if n == 13 then k.(sp := x) else if n == 14 then k.(lr := x)
    else if n == 15 then k.(pc := x) else if n == 16 then k.(cpsr := x) else k
  }

  /** set_cpu_reg; on the CPU, index 16 is refused. */
  method WriteRegister<H>(sched: Scheduler<H>, id: nat, n: nat, x: u32)
    requires sched.Valid() && id < sched.numThreads && AllProper(sched.View())
    modifies sched.threads, sched.s.cpu.Reg
    ensures sched.Valid() && AllProper(sched.View())
    ensures var t := old(sched.View())[id];
      sched.View() == old(sched.View())[id := t.(ctx := Written(t.ctx, id == sched.currentThread, n, x))]
  {
    hide Written, WriteSaved, Live.Capture;
    sched.ViewIsProper();
    if id == sched.currentThread {
      WriteLive(sched.s, n, x);
    } else {
      sched.threads[id] := sched.threads[id].(ctx := WriteSaved(sched.threads[id].ctx, n, x));
    }
    ghost var t := old(sched.View())[id];
    assert sched.View() == old(sched.View())[id := t.(ctx := Written(t.ctx, id == sched.currentThread, n, x))];
  }

  /** 'G' for a thread: what the text says goes to its registers, one after the other. */
  method RestoreThread<H>(sched: Scheduler<H>, id: nat, text: seq<u8>)
    requires sched.Valid() && id < sched.numThreads && AllProper(sched.View()) && |text| >= DUMP_SIZE
    modifies sched.threads, sched.s.cpu.Reg
    ensures sched.Valid()
    ensures var t := old(sched.View())[id]; sched.View() == old(sched.View())[id := t.(ctx :=
      Restored(t.ctx, id == sched.currentThread, ParseWords(text, 16), ParseWord(text[DUMP_SIZE - 8..DUMP_SIZE])))]
  {
    hide ParseWords, ParseWord, Written, WithWritable, Writable, Live.Capture, Scheduler.Valid, Scheduler.View;
    var regs, cpsr := LoadDump(text);
    ghost var live, ts := id == sched.currentThread, sched.View();
    ghost var k := ts[id].ctx;
    ghost var before := Writable(k, live);
    WritableLaws(k, live, before, before);
    assert regs[..0] + before[0..] == before && ts[id := ts[id].(ctx := k)] == ts;
    var i := 0;
    while i < 16
      invariant 0 <= i <= 16 && sched.Valid() && id < sched.numThreads && AllProper(sched.View())
      invariant sched.View() == ts[id := ts[id].(ctx := WithWritable(k, live, regs[..i] + before[i..]))]
    {
      WriteNext(k, live, before, regs, i);
      WriteRegister(sched, id, i, regs[i]);
      i := i + 1;
    }
    assert regs[..16] + before[16..] == regs;
    WriteRegister(sched, id, 16, cpsr);
  }

  lemma WriteNext(k: Context, live: bool, before: seq<u32>, regs: seq<u32>, i: nat)
    requires Sized(k) && |before| == 16 && |regs| == 16 && i < 16
    ensures Written(WithWritable(k, live, regs[..i] + before[i..]), live, i, regs[i])
      == WithWritable(k, live, regs[..i + 1] + before[i + 1..])
  {
    hide WithWritable, Writable;
    var s := regs[..i] + before[i..];
    WritableLaws(k, live, s, s[i := regs[i]]);
    assert s[i := regs[i]] == regs[..i + 1] + before[i + 1..];
  }

  /** 'g' for a thread. */
  method DumpThread<H>(sched: Scheduler<H>, id: nat, out: array<u8>)
    requires sched.Valid() && id < sched.numThreads && AllProper(sched.View()) && DUMP_SIZE <= out.Length
    modifies out
    ensures var k := sched.View()[id].ctx; out[..DUMP_SIZE] == Dump(Readable(k, id == sched.currentThread), k.cpsr)
  {
    hide Readable, Dump, Scheduler.Valid, Scheduler.View;
    ghost var k := sched.View()[id].ctx;
    ghost var live := id == sched.currentThread;
    var pc := ReadRegister(sched, id, 15);
    var cpsr := ReadRegister(sched, id, 16);
    var regs: seq<u32> := [];
    while |regs| < 15
      invariant |regs| <= 15 && regs == Readable(k, live)[..|regs|]
    {
      var x := ReadRegister(sched, id, |regs|);
      regs := regs + [x];
    }
    assert regs + [pc] == Readable(k, live);
    DumpRegisters(out, regs + [pc], cpsr);
  }
}
