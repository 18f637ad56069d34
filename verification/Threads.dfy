/** Threads: one CPU shared by an array of saved contexts (src/arm11/threads.c and src/arm11/wrap.c). Switching, waiting
    and removal are proved against the table of threads as each of them would see itself alone. */
module Threads {
  import opened Words
  import Cpu
  import Architecture

  const MAX_THREADS := 32

  // ---- Contexts ----------------------------------------------------------

  /** The part of a CPU that is saved for a thread. */
  datatype Context = Context(
    r: seq<u32>, sp: u32, lr: u32, pc: u32, cpsr: u32, mode: bv8, r15: u32,
    fpu: seq<u32>, fpunk: u32, fpscr: u32, fpexc: u32, exaddr: u32, exval: u32,
    decoded: u32, loaded: u32, decodedAddr: u32, loadedAddr: u32,
    n: bool, z: bool, c: bool, v: bool, i: u2, ge: u32, e: bool, a: bool, q: bool, t: bool)

  predicate Sized(c: Context) { |c.r| == 13 && |c.fpu| == 32 }

  /** The live CPU: what the interpreter works on, and the fields around it. */
  class Live {
    const cpu: Cpu.State
    const ExtReg: array<u32>
    const VFP: array<u32>
    var currentexaddr: u32
    var currentexval: u32
    var servaddr: u32
    var decoded: u32
    var loaded: u32
    var decodedAddr: u32
    var loadedAddr: u32

    /** arm11_Init, around the processor's own fields: everything is zero but the service buffer address. */
    constructor (cpu: Cpu.State)
      requires cpu.Valid()
      ensures Valid() && this.cpu == cpu && fresh(ExtReg) && fresh(VFP)
      ensures servaddr == 0xFFFF_0000 - 0x1000 * MAX_THREADS
      ensures Capture() == Initial(cpu.Reg[..], cpu.pc, cpu.NextInstr, cpu.Psr(), cpu.TFlag, cpu.Bits(), cpu.Cpsr)
    {
      this.cpu := cpu;
      ExtReg := new u32[32](_ => 0);
      VFP := new u32[3](_ => 0);
      currentexaddr, currentexval, servaddr := 0, 0, 0xFFFF_0000 - 0x1000 * MAX_THREADS;
      decoded, loaded, decodedAddr, loadedAddr := 0, 0, 0, 0;
    }

    ghost predicate Valid() {
      && cpu.Reg.Length == 16 && ExtReg.Length == 32 && VFP.Length == 3
      && cpu.Reg != ExtReg && cpu.Reg != VFP && ExtReg != VFP
      && cpu.ImmedTable != cpu.Reg && cpu.ImmedTable != ExtReg && cpu.ImmedTable != VFP
    }

    /** What the CPU would save. */
    ghost function Capture(): (k: Context)
      requires Valid()
      reads this, cpu, cpu.Reg, ExtReg, VFP
      ensures Sized(k)
    {
      Context(cpu.Reg[..13], cpu.Reg[13], cpu.Reg[14], cpu.pc, cpu.Cpsr, cpu.NextInstr, cpu.Reg[15],
              ExtReg[..], VFP[0], VFP[1], VFP[2], currentexaddr, currentexval,
              decoded, loaded, decodedAddr, loadedAddr, cpu.NFlag, cpu.ZFlag, cpu.CFlag, cpu.VFlag,
              cpu.IFFlags, cpu.GEFlag, cpu.EFlag, cpu.AFlag, cpu.QFlag, cpu.TFlag)
    }

    /** arm11_SaveContext */
    method Save() returns (k: Context)
      requires Valid()
      ensures k == Capture()
    {
      var r, fpu := [], [];
      for j := 0 to 13
        invariant r == cpu.Reg[..j]
      {
        r := r + [cpu.Reg[j]];
      }
      for j := 0 to 32
        invariant fpu == ExtReg[..j]
      {
        fpu := fpu + [ExtReg[j]];
      }
      k := Context(r, cpu.Reg[13], cpu.Reg[14], cpu.pc, cpu.Cpsr, cpu.NextInstr, cpu.Reg[15],
                   fpu, VFP[0], VFP[1], VFP[2], currentexaddr, currentexval,
                   decoded, loaded, decodedAddr, loadedAddr, cpu.NFlag, cpu.ZFlag, cpu.CFlag, cpu.VFlag,
                   cpu.IFFlags, cpu.GEFlag, cpu.EFlag, cpu.AFlag, cpu.QFlag, cpu.TFlag);
    }

    /** `for (i = 0; i < n; i++) to[i] = from[i]` */
    static method CopyWords(to: array<u32>, from: seq<u32>)
      requires |from| <= to.Length
      modifies to
      ensures to[..|from|] == from && to[|from|..] == old(to[|from|..])
    {
      for j := 0 to |from|
        invariant to[..j] == from[..j] && to[|from|..] == old(to[|from|..])
      {
        to[j] := from[j];
      }
    }

    method LoadRegisters(k: Context)
      requires Valid() && Sized(k)
      modifies cpu.Reg
      ensures cpu.Reg[..13] == k.r && cpu.Reg[13] == k.sp && cpu.Reg[14] == k.lr && cpu.Reg[15] == k.r15
    {
      CopyWords(cpu.Reg, k.r);
      cpu.Reg[13], cpu.Reg[14], cpu.Reg[15] := k.sp, k.lr, k.r15;
    }

    method LoadFpu(k: Context)
      requires Valid() && Sized(k)
      modifies ExtReg, VFP
      ensures ExtReg[..] == k.fpu && VFP[0] == k.fpunk && VFP[1] == k.fpscr && VFP[2] == k.fpexc
    {
      CopyWords(ExtReg, k.fpu);
      VFP[0], VFP[1], VFP[2] := k.fpunk, k.fpscr, k.fpexc;
    }

    /** The flags; the T flag is first taken from the saved status word, and then from its own field. */
    method LoadFlags(k: Context)
      modifies cpu`NFlag, cpu`ZFlag, cpu`CFlag, cpu`VFlag, cpu`TFlag
      ensures cpu.NFlag == k.n && cpu.ZFlag == k.z && cpu.CFlag == k.c && cpu.VFlag == k.v && cpu.TFlag == k.t
    {
      hide Architecture.Field;
      cpu.TFlag := Architecture.ThumbIn(k.cpsr);
      cpu.NFlag, cpu.ZFlag, cpu.CFlag, cpu.VFlag, cpu.TFlag := k.n, k.z, k.c, k.v, k.t;
    }

    method LoadBits(k: Context)
      modifies cpu`IFFlags, cpu`GEFlag, cpu`EFlag, cpu`AFlag, cpu`QFlag
      ensures cpu.IFFlags == k.i && cpu.GEFlag == k.ge && cpu.EFlag == k.e && cpu.AFlag == k.a && cpu.QFlag == k.q
    {
      cpu.IFFlags, cpu.GEFlag, cpu.EFlag, cpu.AFlag, cpu.QFlag := k.i, k.ge, k.e, k.a, k.q;
    }

    /** arm11_LoadContext. The service buffer address is the thread's; it is not part of what is saved. */
    method Load(k: Context, buffer: u32)
      requires Valid() && Sized(k)
      modifies this, cpu, cpu.Reg, ExtReg, VFP
      ensures Capture() == k && servaddr == buffer
    {
      LoadRegisters(k);
      LoadFpu(k);
      LoadPlace(k, buffer);
      LoadFlags(k);
      LoadBits(k);
    }

    method LoadPlace(k: Context, buffer: u32)
      modifies cpu`pc, cpu`Cpsr, cpu`NextInstr, this
      ensures cpu.pc == k.pc && cpu.Cpsr == k.cpsr && cpu.NextInstr == k.mode
      ensures currentexaddr == k.exaddr && currentexval == k.exval && servaddr == buffer
      ensures decoded == k.decoded && loaded == k.loaded && decodedAddr == k.decodedAddr && loadedAddr == k.loadedAddr
    {
      cpu.pc, cpu.Cpsr, cpu.NextInstr := k.pc, k.cpsr, k.mode;
      currentexaddr, currentexval, servaddr := k.exaddr, k.exval, buffer;
      decoded, loaded, decodedAddr, loadedAddr := k.decoded, k.loaded, k.decodedAddr, k.loadedAddr;
    }
  }

  /** What a CPU with these registers would save right after its initialization. */
  function Initial(reg: seq<u32>, pc: u32, mode: bv8, f: Architecture.Flags, t: bool, o: Architecture.Others, psr: u32):
    Context
    requires |reg| == 16
  {
    Context(reg[..13], reg[13], reg[14], pc, psr, mode, reg[15], seq(32, _ => 0), 0, 0, 0, 0, 0, 0, 0, 0, 0,
            f.n, f.z, f.c, f.v, o.i, o.ge, o.e, o.a, o.q, t)
  }

  // ---- Threads -----------------------------------------------------------

  datatype RunState = RUNNING | STOPPED | WAITING_SYNC | WAITING_ARB

  datatype Thread = Thread(
    ctx: Context, state: RunState, waitList: seq<u32>, waitAll: bool, arbAddr: u32, arbHandle: u32, handle: u32,
    priority: int, servaddr: u32)

  /** What a handle says when it is waited for: it does not exist, has no wait function, or is waiting or ready. */
  datatype Answer = Missing | NoFunction | Waiting | Ready

  /** Asks the handles of a list in order, which may change what is asked; a wait for all ends at a handle that has no
      wait function. */
  function Replies<H>(ask: (H, u32) -> (Answer, H), h: H, list: seq<u32>, all: bool): (r: (seq<Answer>, H))
    ensures |r.0| <= |list|
  {
    if list == [] then ([], h)
    else
      var last := |list| - 1;
      var (answers, g) := Replies(ask, h, list[..last], all);
      if all && NoFunction in answers then (answers, g)
      else
        var (answer, g') := ask(g, list[last]);
        (answers + [answer], g')
  }

  /** What a thread's handles say, if it waits. */
  function Consult<H>(ask: (H, u32) -> (Answer, H), h: H, t: Thread): (r: (seq<Answer>, H))
    ensures |r.0| <= |t.waitList|
  {
    if t.state == WAITING_SYNC then Replies(ask, h, t.waitList, t.waitAll) else ([], h)
  }

  lemma {:induction false} NothingMoreAsked<H>(ask: (H, u32) -> (Answer, H), h: H, list: seq<u32>, i: nat)
    requires i <= |list| && NoFunction in Replies(ask, h, list[..i], true).0
    ensures Replies(ask, h, list, true) == Replies(ask, h, list[..i], true)
    decreases |list|
  {
    if i == |list| {
      assert list[..i] == list;
    } else {
      var last := |list| - 1;
      assert list[..last][..i] == list[..i];
      NothingMoreAsked(ask, h, list[..last], i);
    }
  }

  lemma NextReply<H>(ask: (H, u32) -> (Answer, H), h: H, list: seq<u32>, all: bool, i: nat)
    requires i < |list|
    ensures Replies(ask, h, list[..0], all) == ([], h)
    ensures var (answers, g) := Replies(ask, h, list[..i], all);
      !(all && NoFunction in answers) ==>
        Replies(ask, h, list[..i + 1], all) == (answers + [ask(g, list[i]).0], ask(g, list[i]).1)
  {
    assert list[..i + 1][..i] == list[..i];
  }

  /** May the thread run? A wait for all is over when no handle is waiting, and is cut short by a handle that cannot be
      asked; a wait for any is over when a handle is ready. */
  predicate MayRun(t: Thread, answers: seq<Answer>) {
    match t.state
    case RUNNING => true
    case STOPPED => false
    case WAITING_ARB => false
    case WAITING_SYNC => if t.waitAll then NoFunction in answers || Waiting !in answers else Ready in answers
  }

  /** Does the thread wake up? A wait for all that was cut short leaves it waiting, although it is let run. */
  predicate Woken(t: Thread, answers: seq<Answer>) {
    t.state == WAITING_SYNC && MayRun(t, answers) && !(t.waitAll && NoFunction in answers)
  }

  function FirstReady(answers: seq<Answer>): (i: nat)
    ensures i <= |answers| && (i < |answers| ==> answers[i] == Ready) && Ready !in answers[..i]
  {
    if answers == [] || answers[0] == Ready then 0
    else
      assert forall k :: 0 < k <= |answers| ==> answers[..k] == [answers[0]] + answers[1..][..k - 1];
      1 + FirstReady(answers[1..])
  }

  /** What a thread that wakes up finds in r1: the number of its handles, or the index of the first that is ready. */
  function Found(t: Thread, answers: seq<Answer>): u32
    requires |answers| <= |t.waitList| < TWO32
  {
    if t.waitAll then |t.waitList| else FirstReady(answers)
  }

  /** Writes r1. */
  function WithResult(k: Context, x: u32): Context
    requires Sized(k)
  {
    k.(r := k.r[1 := x])
  }

  /** A thread after its handles have been asked. */
  function Wake(t: Thread, answers: seq<Answer>): Thread
    requires Proper(t) && |answers| <= |t.waitList|
  {
    if Woken(t, answers) then t.(state := RUNNING, ctx := WithResult(t.ctx, Found(t, answers))) else t
  }

  predicate Proper(t: Thread) { Sized(t.ctx) && |t.waitList| < TWO32 }

  ghost predicate AllProper(ts: seq<Thread>) { forall i :: 0 <= i < |ts| ==> Proper(ts[i]) }

  lemma StoppedMayNotRun(t: Thread, answers: seq<Answer>)
    requires Proper(t) && |answers| <= |t.waitList| && MayRun(t, answers)
    ensures t.state != STOPPED && Wake(t, answers).state != STOPPED
  {
  }

  /** A wait for all, decided. */
  lemma AllDecides(t: Thread, answers: seq<Answer>, unasked: bool, ret: bool)
    requires Proper(t) && |answers| <= |t.waitList| && t.state == WAITING_SYNC && t.waitAll
    requires unasked == (NoFunction in answers) && (!unasked ==> ret == (Waiting !in answers))
    ensures MayRun(t, answers) == (unasked || ret)
    ensures Wake(t, answers) ==
      if !unasked && ret then t.(state := RUNNING, ctx := WithResult(t.ctx, |t.waitList|)) else t
  {
    hide WithResult;
  }

  /** A wait for any, decided. */
  lemma AnyDecides(t: Thread, answers: seq<Answer>, ret: bool, first: nat)
    requires Proper(t) && |answers| <= |t.waitList| && t.state == WAITING_SYNC && !t.waitAll
    requires ret == (Ready in answers) && (ret ==> first == FirstReady(answers))
    ensures MayRun(t, answers) == ret
    ensures ret ==> first < TWO32
    ensures Wake(t, answers) == if ret then t.(state := RUNNING, ctx := WithResult(t.ctx, first)) else t
  {
    hide WithResult, FirstReady;
  }

  lemma {:induction false} FirstStays(answers: seq<Answer>, answer: Answer)
    ensures Ready in answers ==> FirstReady(answers + [answer]) == FirstReady(answers)
    ensures Ready !in answers && answer == Ready ==> FirstReady(answers + [answer]) == |answers|
  {
    if answers != [] {
      assert (answers + [answer])[1..] == answers[1..] + [answer];
      FirstStays(answers[1..], answer);
    }
  }

  /** The threads that have not stopped, in order. */
  function Alive(ts: seq<Thread>): seq<Thread> {
    if ts == [] then [] else (if ts[0].state == STOPPED then [] else [ts[0]]) + Alive(ts[1..])
  }

  lemma {:induction false} AliveSplit(a: seq<Thread>, b: seq<Thread>)
    ensures Alive(a + b) == Alive(a) + Alive(b)
  {
    if a == [] {
      assert a + b == b;
    } else {
      assert (a + b)[1..] == a[1..] + b;
      AliveSplit(a[1..], b);
    }
  }

  /** Taking out one stopped thread. */
  lemma AliveWithout(ts: seq<Thread>, i: nat)
    requires i < |ts| && ts[i].state == STOPPED
    ensures Alive(ts[..i] + ts[i + 1..]) == Alive(ts)
  {
    hide Alive;
    var a, b := ts[..i], ts[i + 1..];
    assert ts == a + ([ts[i]] + b);
    AliveSplit(a, b);
    AliveSplit(a, [ts[i]] + b);
    StoppedFirst(ts[i], b);
  }

  lemma StoppedFirst(t: Thread, ts: seq<Thread>)
    requires t.state == STOPPED
    ensures Alive([t] + ts) == Alive(ts)
  {
    assert ([t] + ts)[1..] == ts;
  }

  lemma {:induction false} AllAlive(ts: seq<Thread>)
    requires forall i :: 0 <= i < |ts| ==> ts[i].state != STOPPED
    ensures Alive(ts) == ts
  {
    if ts != [] { AllAlive(ts[1..]); }
  }

  // ---- The scheduler -----------------------------------------------------

  class Scheduler<H> {
    const threads: array<Thread>
    const s: Live
    /** What lies behind the table in memory; removal from a full table reads it. */
    const behind: Thread
    var handles: H
    var numThreads: nat
    var currentThread: int

    constructor (live: Live, handles: H, behind: Thread)
      requires live.Valid() && Proper(behind)
      ensures Valid() && fresh(threads) && s == live && this.handles == handles && numThreads == 0 && currentThread == 0
      ensures this.behind == behind && View() == [] && Spare() == Copies(MAX_THREADS, ZeroThread())
    {
      threads := new Thread[MAX_THREADS](_ => ZeroThread());
      s, numThreads, currentThread := live, 0, 0;
      this.handles, this.behind := handles, behind;
    }

    ghost predicate Valid()
      reads this`numThreads, this`currentThread, threads
    {
      && threads.Length == MAX_THREADS && numThreads <= MAX_THREADS && s.Valid()
      && (forall i :: 0 <= i < MAX_THREADS ==> Proper(threads[i])) && Proper(behind)
      && -1 <= currentThread < (if numThreads == 0 then 1 else numThreads)
    }

    /** Every thread as it would see itself if it were alone: the current one on the CPU, the others as saved. */
    ghost function View(): (ts: seq<Thread>)
      requires Valid()
      reads this`numThreads, this`currentThread, threads, s, s.cpu, s.cpu.Reg, s.ExtReg, s.VFP
      ensures |ts| == numThreads
    {
      var ts := threads[..numThreads];
      if 0 <= currentThread < numThreads then ts[currentThread := ts[currentThread].(ctx := s.Capture())] else ts
    }

    /** The entries that no thread uses. */
    ghost function Spare(): (es: seq<Thread>)
      requires Valid()
      reads this`numThreads, this`currentThread, threads
      ensures |es| == MAX_THREADS - numThreads
    {
      threads[numThreads..]
    }

    lemma ViewIsProper()
      requires Valid()
      ensures AllProper(View()) && AllProper(Spare())
      ensures forall i :: 0 <= i < numThreads ==> View()[i] == threads[i].(ctx := View()[i].ctx)
      ensures forall i :: 0 <= i < numThreads && i == currentThread ==> View()[i].ctx == s.Capture()
    {
    }

    /** CommonMemSetup: every entry has a page of its own as its service buffer. */
    method SetBuffers()
      requires Valid()
      modifies threads
      ensures Valid() && View() == WithBuffers(old(View()), 0) && Spare() == WithBuffers(old(Spare()), numThreads)
    {
      hide s.Capture;
      for i := 0 to MAX_THREADS
        invariant forall k :: 0 <= k < MAX_THREADS ==>
          threads[k] == if k < i then old(threads[k]).(servaddr := Buffer(k)) else old(threads[k])
      {
        threads[i] := threads[i].(servaddr := 0xFFFF_0000 - 0x1000 * (MAX_THREADS - i));
      }
      assert View() == WithBuffers(old(View()), 0);
    }

    /** threads_New; the program ends if the table is full. */
    method New(handle: u32) returns (id: nat)
      requires Valid() && numThreads < MAX_THREADS
      modifies this`numThreads, threads
      ensures Valid() && id == old(numThreads) && numThreads == id + 1
      ensures Spare() == old(Spare())[1..]
      ensures var t := old(Spare())[0];
        View() == old(View()) + [t.(ctx := if id == currentThread then s.Capture() else t.ctx, state := RUNNING,
                                    waitList := [], handle := handle, priority := 30)]
    {
      id := numThreads;
      threads[id] := threads[id].(state := RUNNING, waitList := [], handle := handle, priority := 30);
      numThreads := numThreads + 1;
      assert threads[..numThreads] == old(threads[..numThreads]) + [threads[id]];
    }

    /** Saves the live CPU in a thread's entry. */
    method SaveContext(t: nat)
      requires Valid() && t < MAX_THREADS
      modifies threads
      ensures Valid() && threads[..] == old(threads[..])[t := old(threads[t]).(ctx := s.Capture())]
    {
      hide s.Capture;
      var k := s.Save();
      threads[t] := threads[t].(ctx := k);
    }

    method LoadContext(t: nat)
      requires Valid() && t < numThreads
      modifies s, s.cpu, s.cpu.Reg, s.ExtReg, s.VFP
      ensures Valid() && s.Capture() == threads[t].ctx
    {
      hide s.Capture;
      s.Load(threads[t].ctx, threads[t].servaddr);
    }

    /** threads_Switch. The program ends if the thread has stopped. */
    method Switch(to: nat)
      requires Valid() && to < numThreads && threads[to].state != STOPPED
      modifies this`currentThread, threads, s, s.cpu, s.cpu.Reg, s.ExtReg, s.VFP
      ensures Valid() && currentThread == to && View() == old(View()) && Spare() == old(Spare())
    {
      hide s.Capture;
      if currentThread == to { return; }
      if currentThread != -1 {
        SaveContext(currentThread);
      }
      LoadContext(to);
      currentThread := to;
    }

    /** threads_SaveContextCurrentThread: no thread is on the CPU afterwards, unless there is only one. */
    method SaveContextCurrentThread()
      requires Valid()
      modifies this`currentThread, threads
      ensures Valid() && View() == old(View()) && View() == threads[..numThreads]
      ensures numThreads > 0 ==> Spare() == old(Spare())
      ensures currentThread == if numThreads > 1 then -1 else old(currentThread)
    {
      hide s.Capture;
      if currentThread != -1 {
        SaveContext(currentThread);
        if numThreads > 1 { currentThread := -1; }
      }
    }

    // ---- Waiting ---------------------------------------------------------

    /** Writes r1 of a thread, which is on the CPU for the current thread. */
    method SetResult(id: nat, x: u32)
      requires Valid() && id < numThreads
      modifies threads, s.cpu.Reg
      ensures Valid() && Spare() == old(Spare())
      ensures var t := old(View())[id]; View() == old(View())[id := t.(ctx := WithResult(t.ctx, x))]
    {
      if currentThread == id {
        s.cpu.Reg[1] := x;
        assert s.Capture() == WithResult(old(s.Capture()), x);
      } else {
        hide s.Capture;
        threads[id] := threads[id].(ctx := WithResult(threads[id].ctx, x));
      }
      assert View() == old(View())[id := old(View())[id].(ctx := WithResult(old(View())[id].ctx, x))];
    }

    method SetState(id: nat, state: RunState)
      requires Valid() && id < numThreads
      modifies threads
      ensures Valid() && View() == old(View())[id := old(View())[id].(state := state)] && Spare() == old(Spare())
    {
      hide s.Capture;
      threads[id] := threads[id].(state := state);
      assert View() == old(View())[id := old(View())[id].(state := state)];
    }

    /** Wakes a thread up with a result in r1. */
    method WakeUp(id: nat, x: u32)
      requires Valid() && id < numThreads
      modifies threads, s.cpu.Reg
      ensures Valid() && AllProper(old(View())) && Spare() == old(Spare())
      ensures var t := old(View())[id]; View() == old(View())[id := t.(state := RUNNING, ctx := WithResult(t.ctx, x))]
    {
      hide View, Spare, WithResult;
      ViewIsProper();
      SetResult(id, x);
      SetState(id, RUNNING);
    }

    /** The search of a wait for all handles. */
    method AskAll(list: seq<u32>, ask: (H, u32) -> (Answer, H)) returns (ret: bool, unasked: bool)
      modifies this`handles
      ensures var (answers, h) := Replies(ask, old(handles), list, true);
        handles == h && unasked == (NoFunction in answers) && (!unasked ==> ret == (Waiting !in answers))
    {
      hide Replies;
      ret, unasked := true, false;
      var i := 0;
      ghost var answers: seq<Answer> := [];
      RepliesToNone(ask, handles, list, true);
      while i < |list|
        invariant 0 <= i <= |list| && Replies(ask, old(handles), list[..i], true) == (answers, handles)
        invariant NoFunction !in answers && ret == (Waiting !in answers)
      {
        NextReply(ask, old(handles), list, true, i);
        var (answer, h) := ask(handles, list[i]);
        handles := h;
        answers := answers + [answer];
        if answer == NoFunction {
          NothingMoreAsked(ask, old(handles), list, i + 1);
          return ret, true;
        }
        if answer == Waiting { ret := false; }
        i := i + 1;
      }
      assert list[..i] == list;
    }

    /** The search of a wait for any handle; it goes on asking, but only the first one that is ready counts. */
    method AskAny(list: seq<u32>, ask: (H, u32) -> (Answer, H)) returns (ret: bool, first: nat)
      modifies this`handles
      ensures var (answers, h) := Replies(ask, old(handles), list, false);
        handles == h && ret == (Ready in answers) && (ret ==> first == FirstReady(answers))
    {
      hide Replies, FirstReady;
      ret, first := false, 0;
      var i := 0;
      ghost var answers: seq<Answer> := [];
      RepliesToNone(ask, handles, list, false);
      while i < |list|
        invariant 0 <= i <= |list| == i + |list[i..]| && |answers| == i
        invariant Replies(ask, old(handles), list[..i], false) == (answers, handles)
        invariant ret == (Ready in answers) && (ret ==> first == FirstReady(answers))
      {
        NextReply(ask, old(handles), list, false, i);
        var (answer, h) := ask(handles, list[i]);
        handles := h;
        FirstStays(answers, answer);
        if !ret && answer == Ready { ret, first := true, i; }
        answers := answers + [answer];
        i := i + 1;
      }
      assert list[..i] == list;
    }

    /** A wait for all: the waiting case of threads_IsThreadActive, first half. */
    method WaitForAll(id: nat, ask: (H, u32) -> (Answer, H)) returns (ret: bool)
      requires Valid() && id < numThreads && threads[id].state == WAITING_SYNC && threads[id].waitAll
      modifies this`handles, threads, s.cpu.Reg
      ensures Valid() && AllProper(old(View())) && Spare() == old(Spare())
      ensures var t := old(View())[id]; var (answers, h) := Consult(ask, old(handles), t);
        handles == h && ret == MayRun(t, answers) && View() == old(View())[id := Wake(t, answers)]
    {
      hide View, Spare, WithResult, Wake, MayRun, Replies;
      ViewIsProper();
      ghost var t := View()[id];
      var unasked;
      ret, unasked := AskAll(threads[id].waitList, ask);
      AllDecides(t, Consult(ask, old(handles), t).0, unasked, ret);
      if unasked { return true; }
      if ret { WakeUp(id, |threads[id].waitList|); }
    }

    /** A wait for any: the second half. */
    method WaitForAny(id: nat, ask: (H, u32) -> (Answer, H)) returns (ret: bool)
      requires Valid() && id < numThreads && threads[id].state == WAITING_SYNC && !threads[id].waitAll
      modifies this`handles, threads, s.cpu.Reg
      ensures Valid() && AllProper(old(View())) && Spare() == old(Spare())
      ensures var t := old(View())[id]; var (answers, h) := Consult(ask, old(handles), t);
        handles == h && ret == MayRun(t, answers) && View() == old(View())[id := Wake(t, answers)]
    {
      hide View, Spare, WithResult, Wake, MayRun, Replies;
      ViewIsProper();
      ghost var t := View()[id];
      var first;
      ret, first := AskAny(threads[id].waitList, ask);
      AnyDecides(t, Consult(ask, old(handles), t).0, ret, first);
      if ret { WakeUp(id, first); }
    }

    /** threads_IsThreadActive: tells whether the thread may run, and wakes it up if its wait is over. */
    method IsThreadActive(id: nat, ask: (H, u32) -> (Answer, H)) returns (ret: bool)
      requires Valid() && id < numThreads
      modifies this`handles, threads, s.cpu.Reg
      ensures Valid() && AllProper(old(View())) && Spare() == old(Spare())
      ensures var t := old(View())[id]; var (answers, h) := Consult(ask, old(handles), t);
        handles == h && ret == MayRun(t, answers) && View() == old(View())[id := Wake(t, answers)]
    {
      hide View, Spare, Replies, WithResult;
      ViewIsProper();
      match threads[id].state {
        case RUNNING => ret := true;
        case STOPPED => ret := false;
        case WAITING_ARB => ret := false;
        case WAITING_SYNC =>
          if threads[id].waitAll { ret := WaitForAll(id, ask); } else { ret := WaitForAny(id, ask); }
      }
    }

    // ---- Removal ---------------------------------------------------------

    /** threads_NextIdToBeDeleted */
    method NextStopped() returns (found: bool, id: nat)
      requires threads.Length == MAX_THREADS && numThreads <= MAX_THREADS
      ensures found ==> id < numThreads && threads[id].state == STOPPED
      ensures !found ==> forall k :: 0 <= k < numThreads ==> threads[k].state != STOPPED
    {
      id := 0;
      while id < numThreads
        invariant forall k :: 0 <= k < id && k < numThreads ==> threads[k].state != STOPPED
      {
        if threads[id].state == STOPPED { return true, id; }
        id := id + 1;
      }
      found := false;
    }

    /** Closes the gap at an entry. The last turn of the loop copies the entry after the last one, which in a full table
        is no entry at all; what it copies is not part of the table any more. */
    method ShiftDown(id: nat)
      requires threads.Length == MAX_THREADS && id < numThreads <= MAX_THREADS
      modifies threads
      ensures forall k :: 0 <= k < id || numThreads <= k < MAX_THREADS ==> threads[k] == old(threads[k])
      ensures forall k :: id <= k < numThreads ==>
        threads[k] == if k + 1 < MAX_THREADS then old(threads[k + 1]) else behind
    {
      var i: nat := id;
      while i < numThreads
        invariant id <= i <= numThreads
        invariant forall k :: 0 <= k < id || i <= k < MAX_THREADS ==> threads[k] == old(threads[k])
        invariant forall k :: id <= k < i ==> threads[k] == if k + 1 < MAX_THREADS then old(threads[k + 1]) else behind
      {
        threads[i] := if i + 1 < MAX_THREADS then threads[i + 1] else behind;
        i := i + 1;
      }
    }

    /** Removes a stopped thread; behind the last one a copy of the entry after it appears. */
    method RemoveOne(id: nat)
      requires threads.Length == MAX_THREADS && id < numThreads <= MAX_THREADS && threads[id].state == STOPPED
      requires Proper(behind) && forall i :: 0 <= i < MAX_THREADS ==> Proper(threads[i])
      modifies this`numThreads, threads
      ensures numThreads == old(numThreads) - 1 && Alive(threads[..numThreads]) == Alive(old(threads[..numThreads]))
      ensures threads[numThreads..] == [After(old(threads[numThreads..]))] + old(threads[numThreads..])
      ensures forall i :: 0 <= i < MAX_THREADS ==> Proper(threads[i])
    {
      hide Proper, Alive;
      ghost var ts, es := threads[..numThreads], threads[numThreads..];
      AliveWithout(ts, id);
      ShiftDown(id);
      numThreads := numThreads - 1;
      ghost var us := ts[..id] + ts[id + 1..];
      assert forall k :: 0 <= k < id ==> us[k] == ts[k];
      assert forall k :: id <= k < |us| ==> us[k] == ts[k + 1];
      assert threads[..numThreads] == us;
      assert threads[numThreads..] == [After(es)] + es;
    }

    lemma NoCopies(es: seq<Thread>)
      ensures Copies(0, After(es)) + es == es
    {
    }

    lemma NextCopy(n: nat, es: seq<Thread>)
      ensures var fs := Copies(n, After(es)) + es; [After(fs)] + fs == Copies(n + 1, After(es)) + es
    {
      OneMoreCopy(n, After(es));
      assert ([After(es)] + Copies(n, After(es))) + es == [After(es)] + (Copies(n, After(es)) + es);
    }

    /** The entry after the last thread. */
    function After(es: seq<Thread>): Thread { if es == [] then behind else es[0] }

    /** threads_RemoveZombies: leaves the live threads, in order, and counts the others. */
    method RemoveZombies() returns (count: nat)
      requires threads.Length == MAX_THREADS && numThreads <= MAX_THREADS && Proper(behind)
      requires forall i :: 0 <= i < MAX_THREADS ==> Proper(threads[i])
      modifies this`numThreads, threads
      ensures numThreads + count == old(numThreads) && threads[..numThreads] == Alive(old(threads[..numThreads]))
      ensures threads[numThreads..] == Copies(count, After(old(threads[numThreads..]))) + old(threads[numThreads..])
      ensures forall i :: 0 <= i < MAX_THREADS ==> Proper(threads[i])
    {
      hide Proper, Alive, Copies, After;
      count := 0;
      ghost var before, es := threads[..numThreads], threads[numThreads..];
      NoCopies(es);
      var found: bool, id: nat := NextStopped();
      while found
        invariant threads.Length == MAX_THREADS && numThreads <= MAX_THREADS && numThreads + count == |before|
        invariant found ==> id < numThreads && threads[id].state == STOPPED
        invariant !found ==> forall k :: 0 <= k < numThreads ==> threads[k].state != STOPPED
        invariant Alive(threads[..numThreads]) == Alive(before)
        invariant threads[numThreads..] == Copies(count, After(es)) + es
        invariant forall i :: 0 <= i < MAX_THREADS ==> Proper(threads[i])
        decreases numThreads, found
      {
        NextCopy(count, es);
        RemoveOne(id);
        count := count + 1;
        found, id := NextStopped();
      }
      AllAlive(threads[..numThreads]);
    }

    /** The end of threads_Execute: the CPU is saved and stopped threads are removed. */
    method EndRound()
      requires Valid()
      modifies this`currentThread, this`numThreads, threads
      ensures Valid() && View() == Alive(old(View())) && numThreads <= old(numThreads)
      ensures old(numThreads) > 0 ==>
        Spare() == Copies(old(numThreads) - numThreads, After(old(Spare()))) + old(Spare())
    {
      hide s.Capture, Alive, After, Copies, Proper;
      SaveContextCurrentThread();
      ghost var ts := threads[..numThreads];
      AliveIsProper(ts);
      AliveOfFew(ts);
      var _ := RemoveZombies();
      assert threads[..numThreads] == Alive(ts);
    }

    // ---- The table as a whole --------------------------------------------

    /** The table as the threads see themselves. */
    method Table() returns (ts: seq<Thread>)
      requires Valid()
      ensures ts == View()
    {
      hide s.Capture;
      ts := threads[..numThreads];
      if 0 <= currentThread < numThreads {
        var k := s.Save();
        ts := ts[currentThread := ts[currentThread].(ctx := k)];
      }
    }

    /** Replaces the table while a thread is on the CPU: what a system call may do to the threads. */
    method Install(ts: seq<Thread>)
      requires Valid() && numThreads == |ts| && AllProper(ts) && 0 <= currentThread < numThreads
      modifies threads, s, s.cpu, s.cpu.Reg, s.ExtReg, s.VFP
      ensures Valid() && View() == ts && Spare() == old(Spare())
    {
      hide s.Capture;
      for i := 0 to |ts|
        invariant threads[..i] == ts[..i] && forall k :: 0 <= k < MAX_THREADS ==> Proper(threads[k])
        invariant threads[numThreads..] == old(threads[numThreads..])
      {
        threads[i] := ts[i];
      }
      assert threads[..numThreads] == ts;
      s.Load(ts[currentThread].ctx, s.servaddr);
    }
  }

  /** The service buffer of an entry. */
  function Buffer(i: nat): (addr: u32)
    requires i < MAX_THREADS
    ensures addr + 0x1000 <= 0xFFFF_0000
  {
    0xFFFF_0000 - 0x1000 * (MAX_THREADS - i)
  }

  /** The buffers are pages, one above the other. */
  lemma BuffersArePages(i: nat, j: nat)
    requires i < j < MAX_THREADS
    ensures Buffer(i) % 0x1000 == 0 && Buffer(j) % 0x1000 == 0 && Buffer(i) + 0x1000 <= Buffer(j)
  {
    SameRemainder(0xFFFF_0000, i - MAX_THREADS, 0x1000);
    SameRemainder(0xFFFF_0000, j - MAX_THREADS, 0x1000);
  }

  /** Entries with their buffers, the first of them at a place in the table. */
  function WithBuffers(ts: seq<Thread>, first: nat): (us: seq<Thread>)
    requires first + |ts| <= MAX_THREADS
    ensures |us| == |ts|
  {
    seq(|ts|, i requires 0 <= i < |ts| => ts[i].(servaddr := Buffer(first + i)))
  }

  function Copies(n: nat, t: Thread): (ts: seq<Thread>)
    ensures |ts| == n
  {
    seq(n, _ => t)
  }

  lemma OneMoreCopy(n: nat, t: Thread)
    ensures Copies(n + 1, t) == [t] + Copies(n, t) && Copies(n + 1, t)[1..] == Copies(n, t)
  {
  }

  lemma AliveOfFew(ts: seq<Thread>)
    ensures ts == [] ==> Alive(ts) == []
    ensures |ts| == 1 ==> Alive(ts) == if ts[0].state == STOPPED then [] else ts
  {
    if |ts| == 1 { assert Alive(ts[1..]) == []; }
  }

  lemma RepliesToNone<H>(ask: (H, u32) -> (Answer, H), h: H, list: seq<u32>, all: bool)
    ensures Replies(ask, h, list[..0], all) == ([], h)
  {
  }

  lemma {:induction false} AliveIsProper(ts: seq<Thread>)
    requires AllProper(ts)
    ensures AllProper(Alive(ts)) && |Alive(ts)| <= |ts|
  {
    if ts != [] { AliveIsProper(ts[1..]); }
  }

  /** An entry of the table before its first use. */
  function ZeroThread(): (t: Thread)
    ensures Proper(t)
  {
    var zero := Context(seq(13, _ => 0), 0, 0, 0, 0, 0, 0, seq(32, _ => 0), 0, 0, 0, 0, 0, 0, 0, 0, 0,
                        false, false, false, false, 0, 0, false, false, false, false);
    Thread(zero, RUNNING, [], false, 0, 0, 0, 0, 0)
  }
}
