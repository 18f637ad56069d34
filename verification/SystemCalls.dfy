/** The system calls that act on threads (src/arm11/threads.c, src/syscalls/arb.c): stopping, waiting, arbitration,
    priorities and creation. Each changes the views of the threads it is meant for, on the CPU or saved, and no
    others. */
module SystemCalls {
  import opened Words
  import opened Memory
  import opened Threads
  import Cpu

  // ---- Finding threads ---------------------------------------------------

  /** Stands for the current thread. */
  const CURRENT_THREAD: u32 := 0xFFFF_8000

  /** The first thread with a handle; -1 if there is none. */
  function FirstWith(ts: seq<Thread>, handle: u32): (id: int)
    ensures -1 <= id < |ts| && (id >= 0 ==> ts[id].handle == handle)
    ensures forall k :: 0 <= k < (if id < 0 then |ts| else id) ==> ts[k].handle != handle
  {
    if ts == [] then -1
    else
      var last := |ts| - 1;
      var id := FirstWith(ts[..last], handle);
      if id >= 0 then id else if ts[last].handle == handle then last else -1
  }

  function FindId(ts: seq<Thread>, current: int, handle: u32): (id: int)
    ensures -1 <= current < |ts| ==> -1 <= id < |ts|
  {
    if handle == CURRENT_THREAD then current else FirstWith(ts, handle)
  }

  // ---- Arbitration -------------------------------------------------------

  /** Does the thread wait for this address of this arbiter? */
  predicate WaitsAt(t: Thread, arbiter: u32, addr: u32) {
    t.state == WAITING_ARB && t.arbHandle == arbiter && t.arbAddr == addr
  }

  /** Can it be released? The search passes over priorities above 0x80. */
  predicate Arbitrable(t: Thread, arbiter: u32, addr: u32) { WaitsAt(t, arbiter, addr) && t.priority <= 0x80 }

  /** Is thread i released before thread k? Small numbers are high priorities; among equals the last one is first. */
  predicate Precedes(ts: seq<Thread>, i: int, k: int)
    requires 0 <= i < |ts| && 0 <= k < |ts|
  {
    ts[i].priority < ts[k].priority || (ts[i].priority == ts[k].priority && k < i)
  }

  /** The thread that is released next; -1 if none waits. */
  function Foremost(ts: seq<Thread>, arbiter: u32, addr: u32): (id: int)
    ensures -1 <= id < |ts| && (id >= 0 ==> Arbitrable(ts[id], arbiter, addr))
    ensures forall k :: 0 <= k < |ts| && k != id && Arbitrable(ts[k], arbiter, addr) ==> id >= 0 && Precedes(ts, id, k)
  {
    if ts == [] then -1
    else
      var last := |ts| - 1;
      var id := Foremost(ts[..last], arbiter, addr);
      if Arbitrable(ts[last], arbiter, addr) && (id < 0 || ts[last].priority <= ts[id].priority) then last else id
  }

  function Resumed(t: Thread): Thread { t.(arbHandle := 0, arbAddr := 0, state := RUNNING) }

  /** Releases up to n threads, one after the other. */
  function Released(ts: seq<Thread>, arbiter: u32, addr: u32, n: nat): (us: seq<Thread>)
    ensures |us| == |ts|
    decreases n
  {
    var id := Foremost(ts, arbiter, addr);
    if n == 0 || id < 0 then ts else Released(ts[id := Resumed(ts[id])], arbiter, addr, n - 1)
  }

  function AllReleased(ts: seq<Thread>, arbiter: u32, addr: u32): (us: seq<Thread>)
    ensures |us| == |ts|
  {
    seq(|ts|, i requires 0 <= i < |ts| => if Arbitrable(ts[i], arbiter, addr) then Resumed(ts[i]) else ts[i])
  }

  /** How many threads wait. */
  function Waiters(ts: seq<Thread>, arbiter: u32, addr: u32): (n: nat)
    ensures n == 0 <==> forall k :: 0 <= k < |ts| ==> !Arbitrable(ts[k], arbiter, addr)
  {
    if ts == [] then 0
    else
      assert forall k :: 0 < k < |ts| ==> ts[k] == ts[1..][k - 1];
      (if Arbitrable(ts[0], arbiter, addr) then 1 else 0) + Waiters(ts[1..], arbiter, addr)
  }

  lemma {:induction false} OneWaiterLess(ts: seq<Thread>, i: nat, arbiter: u32, addr: u32)
    requires i < |ts| && Arbitrable(ts[i], arbiter, addr)
    ensures Waiters(ts[i := Resumed(ts[i])], arbiter, addr) == Waiters(ts, arbiter, addr) - 1
  {
    hide Arbitrable;
    assert !Arbitrable(Resumed(ts[i]), arbiter, addr) by { ResumedIsNot(ts[i], arbiter, addr); }
    var us := ts[i := Resumed(ts[i])];
    if i == 0 {
      assert us[1..] == ts[1..];
    } else {
      assert us[1..] == ts[1..][i - 1 := Resumed(ts[1..][i - 1])];
      OneWaiterLess(ts[1..], i - 1, arbiter, addr);
    }
  }

  lemma ResumedIsNot(t: Thread, arbiter: u32, addr: u32)
    ensures !WaitsAt(Resumed(t), arbiter, addr) && !Arbitrable(Resumed(t), arbiter, addr)
  {
  }

  /** Releasing n threads releases exactly the first n in the order of precedence, or all if no more wait. */
  lemma {:induction false} ReleasesForemost(ts: seq<Thread>, arbiter: u32, addr: u32, n: nat)
    decreases n
    ensures var us := Released(ts, arbiter, addr, n);
      && Waiters(us, arbiter, addr) == (if n < Waiters(ts, arbiter, addr) then Waiters(ts, arbiter, addr) - n else 0)
      && (forall i :: 0 <= i < |ts| ==>
            us[i] == ts[i] || (Arbitrable(ts[i], arbiter, addr) && us[i] == Resumed(ts[i])))
      && (forall i, k :: 0 <= i < |ts| && 0 <= k < |ts| && us[i] != ts[i] && Arbitrable(us[k], arbiter, addr) ==>
            Precedes(ts, i, k))
  {
    hide Waiters, Arbitrable;
    var id := Foremost(ts, arbiter, addr);
    if id >= 0 && n > 0 {
      var vs := ts[id := Resumed(ts[id])];
      ReleasesForemost(vs, arbiter, addr, n - 1);
      OneWaiterLess(ts, id, arbiter, addr);
      ResumedIsNot(ts[id], arbiter, addr);
    }
  }

  /** Releasing at least as many threads as wait is releasing all. */
  lemma ReleasesAll(ts: seq<Thread>, arbiter: u32, addr: u32, n: nat)
    requires n >= Waiters(ts, arbiter, addr)
    ensures Released(ts, arbiter, addr, n) == AllReleased(ts, arbiter, addr)
  {
    hide Waiters, Arbitrable, Released;
    ReleasesForemost(ts, arbiter, addr, n);
  }

  /** Releasing all threads, which a negative value asks for, leaves some waiting exactly if their priority is above
      0x80. */
  lemma AllReleasedUnless(ts: seq<Thread>, arbiter: u32, addr: u32)
    ensures (forall i :: 0 <= i < |ts| ==> !WaitsAt(AllReleased(ts, arbiter, addr)[i], arbiter, addr))
       <==> (forall i :: 0 <= i < |ts| && WaitsAt(ts[i], arbiter, addr) ==> ts[i].priority <= 0x80)
  {
    hide WaitsAt;
    var us := AllReleased(ts, arbiter, addr);
    forall i | 0 <= i < |ts|
      ensures WaitsAt(us[i], arbiter, addr) <==> WaitsAt(ts[i], arbiter, addr) && ts[i].priority > 0x80
    {
      ResumedIsNot(ts[i], arbiter, addr);
    }
  }

  lemma StillAllReleased(ts: seq<Thread>, i: nat, arbiter: u32, addr: u32)
    requires i < |ts| && Arbitrable(ts[i], arbiter, addr)
    ensures AllReleased(ts[i := Resumed(ts[i])], arbiter, addr) == AllReleased(ts, arbiter, addr)
  {
  }

  lemma NoneToRelease(ts: seq<Thread>, arbiter: u32, addr: u32)
    requires Foremost(ts, arbiter, addr) < 0
    ensures AllReleased(ts, arbiter, addr) == ts
  {
  }

  /** The threads once the current one, t, has been suspended at an address of an arbiter. */
  function Suspended(ts: seq<Thread>, t: nat, arbiter: u32, addr: u32): (us: seq<Thread>)
    requires t < |ts|
    ensures |us| == |ts|
  {
    ts[t := ts[t].(state := WAITING_ARB, arbAddr := addr, arbHandle := arbiter)]
  }

  /** What an arbitration by thread t makes of the threads and the memory, and its result code: releasing threads, or
      suspending the current one if the value is not below the word at the address, which may be decremented first. */
  function Arbitration(ts: seq<Thread>, t: nat, f: Flat, valid: bool, arbiter: u32, addr: u32, kind: u32, value: int):
    (r: Option<(seq<Thread>, Flat, u32)>)
    requires t < |ts|
    ensures r.Some? ==> |r.value.0| == |ts|
  {
    if addr % 4 != 0 then Some((ts, f, 0xD8E0_07F1))
    else if !valid then Some((ts, f, 0xD8E0_07F7))
    else if kind == 0 then
      Some((if value < 0 then AllReleased(ts, arbiter, addr) else Released(ts, arbiter, addr, value), f, 0))
    else if kind > 4 then Some((ts, f, 0xD8E0_93ED))
    else if addr + 4 >= TWO32 then None
    else
      var x := LoadedWord(f, addr);
      var y := if kind % 2 == 0 then Wrap(x - 1) else x;
      Some((if value >= Signed(y) then Suspended(ts, t, arbiter, addr) else ts,
            if kind % 2 == 0 then Stored(f, addr, Bytes(y, 4)) else f, 0))
  }

  // ---- The calls ---------------------------------------------------------

  function WithRegister(t: Thread, n: nat, x: u32): (u: Thread)
    requires Proper(t) && n < 13
    ensures Proper(u)
  {
    t.(ctx := t.ctx.(r := t.ctx.r[n := x]))
  }

  /** arm11_R */
  method Register<H>(sched: Scheduler<H>, n: nat) returns (x: u32)
    requires sched.Valid() && n < 13 && 0 <= sched.currentThread < sched.numThreads
    ensures AllProper(sched.View()) && x == sched.View()[sched.currentThread].ctx.r[n]
  {
    sched.ViewIsProper();
    x := sched.s.cpu.Reg[n];
  }

  /** The first four registers. */
  method Arguments<H>(sched: Scheduler<H>) returns (r0: u32, r1: u32, r2: u32, r3: u32)
    requires sched.Valid() && 0 <= sched.currentThread < sched.numThreads
    ensures AllProper(sched.View())
    ensures var r := sched.View()[sched.currentThread].ctx.r; r0 == r[0] && r1 == r[1] && r2 == r[2] && r3 == r[3]
  {
    hide sched.Valid, sched.View, Proper;
    r0 := Register(sched, 0);
    r1 := Register(sched, 1);
    r2 := Register(sched, 2);
    r3 := Register(sched, 3);
  }

  /** arm11_SetR */
  method SetRegister<H>(sched: Scheduler<H>, n: nat, x: u32)
    requires sched.Valid() && n < 13 && 0 <= sched.currentThread < sched.numThreads
    modifies sched.s.cpu.Reg
    ensures sched.Valid() && sched.Spare() == old(sched.Spare()) && AllProper(old(sched.View()))
    ensures var t: nat := sched.currentThread;
      sched.View() == old(sched.View())[t := WithRegister(old(sched.View())[t], n, x)]
  {
    hide sched.s.Capture;
    sched.ViewIsProper();
    SetLive(sched.s, n, x);
    ghost var ts, t: nat := old(sched.View()), sched.currentThread;
    assert sched.View() == ts[t := WithRegister(ts[t], n, x)];
  }

  method SetLive(s: Live, n: nat, x: u32)
    requires s.Valid() && n < 13
    modifies s.cpu.Reg
    ensures s.Valid() && s.Capture() == old(s.Capture()).(r := old(s.Capture()).r[n := x])
  {
    s.cpu.Reg[n] := x;
  }

  /** threads_FindIdByHandle */
  method FindIdByHandle<H>(sched: Scheduler<H>, handle: u32) returns (id: int)
    requires sched.Valid()
    ensures id == FindId(sched.View(), sched.currentThread, handle)
  {
    hide sched.s.Capture;
    if handle == CURRENT_THREAD { return sched.currentThread; }
    sched.ViewIsProper();
    id := 0;
    while id < sched.numThreads
      invariant 0 <= id <= sched.numThreads && forall k :: 0 <= k < id ==> sched.threads[k].handle != handle
    {
      if sched.threads[id].handle == handle { return id; }
      id := id + 1;
    }
    id := -1;
  }

  /** threads_StopThread */
  method StopThread<H>(sched: Scheduler<H>, id: nat)
    requires sched.Valid() && id < sched.numThreads
    modifies sched.threads
    ensures sched.Valid() && sched.Spare() == old(sched.Spare())
    ensures sched.View() == old(sched.View())[id := old(sched.View())[id].(state := STOPPED)]
  {
    sched.SetState(id, STOPPED);
  }

  /** thread_CloseHandle */
  method CloseHandle<H>(sched: Scheduler<H>, handle: u32) returns (ret: u32)
    requires sched.Valid() && 0 <= sched.currentThread < sched.numThreads
    modifies sched.threads
    ensures sched.Valid() && sched.Spare() == old(sched.Spare())
    ensures var ts := old(sched.View()); var id := FindId(ts, sched.currentThread, handle);
      && ret == (if id < 0 then 0xFFFF_FFFF else 0)
      && sched.View() == if id < 0 then ts else ts[id := ts[id].(state := STOPPED)]
  {
    hide sched.View, sched.Spare, FindId;
    var id := FindIdByHandle(sched, handle);
    if id == -1 { return 0xFFFF_FFFF; }
    StopThread(sched, id);
    ret := 0;
  }

  /** The thread that waits for these handles. */
  function WaitingFor(t: Thread, list: seq<u32>, all: bool): Thread {
    t.(waitList := list, state := WAITING_SYNC, waitAll := all)
  }

  /** threads_SetCurrentThreadWaitList */
  method SetCurrentThreadWaitList<H>(sched: Scheduler<H>, list: seq<u32>, all: bool)
    requires sched.Valid() && 0 <= sched.currentThread < sched.numThreads && |list| < TWO32
    modifies sched.threads
    ensures sched.Valid() && sched.Spare() == old(sched.Spare())
    ensures var ts, t: nat := old(sched.View()), sched.currentThread;
      sched.View() == ts[t := WaitingFor(ts[t], list, all)]
  {
    hide sched.s.Capture;
    var t := sched.currentThread;
    sched.threads[t] := sched.threads[t].(waitList := list, state := WAITING_SYNC, waitAll := all);
    assert sched.View() == old(sched.View())[t := WaitingFor(old(sched.View())[t], list, all)];
  }

  /** threads_SetCurrentThreadArbitrationSuspend */
  method SetCurrentThreadArbitrationSuspend<H>(sched: Scheduler<H>, arbiter: u32, addr: u32)
    requires sched.Valid() && 0 <= sched.currentThread < sched.numThreads
    modifies sched.threads
    ensures sched.Valid() && sched.Spare() == old(sched.Spare())
    ensures sched.View() == Suspended(old(sched.View()), sched.currentThread, arbiter, addr)
  {
    hide sched.s.Capture;
    var t := sched.currentThread;
    sched.threads[t] := sched.threads[t].(state := WAITING_ARB, arbAddr := addr, arbHandle := arbiter);
    assert sched.View() == Suspended(old(sched.View()), t, arbiter, addr);
  }

  /** threads_ResumeArbitratedThread */
  method ResumeArbitratedThread<H>(sched: Scheduler<H>, id: nat)
    requires sched.Valid() && id < sched.numThreads
    modifies sched.threads
    ensures sched.Valid() && sched.Spare() == old(sched.Spare())
    ensures sched.View() == old(sched.View())[id := Resumed(old(sched.View())[id])]
  {
    hide sched.s.Capture;
    sched.threads[id] := sched.threads[id].(arbHandle := 0, arbAddr := 0, state := RUNNING);
    assert sched.View() == old(sched.View())[id := Resumed(old(sched.View())[id])];
  }

  /** threads_ArbitrateHighestPrioThread */
  method ArbitrateHighestPrioThread<H>(sched: Scheduler<H>, arbiter: u32, addr: u32) returns (ret: int)
    requires sched.Valid()
    ensures ret == Foremost(sched.View(), arbiter, addr) && ret < sched.numThreads
  {
    hide sched.s.Capture, sched.Spare, Foremost, Proper;
    sched.ViewIsProper();
    ret := -1;
    var highest := 0x80;
    var i := 0;
    ForemostOfNone(sched.View(), arbiter, addr);
    while i < sched.numThreads
      invariant 0 <= i <= sched.numThreads && ret == Foremost(sched.View()[..i], arbiter, addr) && ret < i
      invariant highest == if ret < 0 then 0x80 else sched.View()[ret].priority
    {
      NextForemost(sched.View(), i, arbiter, addr);
      var t := sched.threads[i];
      i := i + 1;
      if t.state != WAITING_ARB { continue; }
      if t.arbHandle != arbiter { continue; }
      if t.arbAddr != addr { continue; }
      if t.priority <= highest { ret, highest := i - 1, t.priority; }
    }
    assert sched.View()[..i] == sched.View();
  }

  lemma ForemostOfNone(ts: seq<Thread>, arbiter: u32, addr: u32)
    ensures Foremost(ts[..0], arbiter, addr) == -1
  {
  }

  lemma NextForemost(ts: seq<Thread>, i: nat, arbiter: u32, addr: u32)
    requires i < |ts|
    ensures var id := Foremost(ts[..i], arbiter, addr);
      && (id >= 0 ==> ts[id].priority <= 0x80)
      && Foremost(ts[..i + 1], arbiter, addr) ==
           if Arbitrable(ts[i], arbiter, addr) && (id < 0 || ts[i].priority <= ts[id].priority) then i else id
  {
    assert ts[..i + 1][..i] == ts[..i];
  }

  /** Releases threads until none waits. */
  method ReleaseAll<H>(sched: Scheduler<H>, arbiter: u32, addr: u32)
    requires sched.Valid()
    modifies sched.threads
    ensures sched.Valid() && sched.Spare() == old(sched.Spare())
    ensures sched.View() == AllReleased(old(sched.View()), arbiter, addr)
  {
    hide sched.View, sched.Spare, sched.Valid, Foremost, AllReleased, Arbitrable, Resumed, Waiters;
    ghost var ts := sched.View();
    var p := ArbitrateHighestPrioThread(sched, arbiter, addr);
    while p >= 0
      invariant sched.Valid() && sched.Spare() == old(sched.Spare()) && p < sched.numThreads
      invariant p == Foremost(sched.View(), arbiter, addr)
      invariant AllReleased(sched.View(), arbiter, addr) == AllReleased(ts, arbiter, addr)
      decreases Waiters(sched.View(), arbiter, addr)
    {
      StillAllReleased(sched.View(), p, arbiter, addr);
      OneWaiterLess(sched.View(), p, arbiter, addr);
      ResumeArbitratedThread(sched, p);
      p := ArbitrateHighestPrioThread(sched, arbiter, addr);
    }
    NoneToRelease(sched.View(), arbiter, addr);
  }

  /** Releases the first so many threads. */
  method ReleaseSome<H>(sched: Scheduler<H>, arbiter: u32, addr: u32, value: nat)
    requires sched.Valid()
    modifies sched.threads
    ensures sched.Valid() && sched.Spare() == old(sched.Spare())
    ensures sched.View() == Released(old(sched.View()), arbiter, addr, value)
  {
    hide sched.View, sched.Spare, sched.Valid, Foremost, Resumed, Released;
    ghost var ts := sched.View();
    var i := 0;
    while i < value
      invariant sched.Valid() && sched.Spare() == old(sched.Spare()) && i <= value
      invariant Released(sched.View(), arbiter, addr, value - i) == Released(ts, arbiter, addr, value)
    {
      ReleasedStep(sched.View(), arbiter, addr, value - i);
      var p := ArbitrateHighestPrioThread(sched, arbiter, addr);
      if p < 0 { break; }
      ResumeArbitratedThread(sched, p);
      i := i + 1;
    }
    ReleasedStep(sched.View(), arbiter, addr, value - i);
  }

  lemma ReleasedStep(ts: seq<Thread>, arbiter: u32, addr: u32, n: nat)
    ensures var id := Foremost(ts, arbiter, addr);
      Released(ts, arbiter, addr, n) ==
        if n == 0 || id < 0 then ts else Released(ts[id := Resumed(ts[id])], arbiter, addr, n - 1)
  {
  }

  /** The cases 1 and 3 of svcArbitrateAddress. */
  method Acquire<H>(sched: Scheduler<H>, mem: Segments, arbiter: u32, addr: u32, value: int)
    requires sched.Valid() && 0 <= sched.currentThread < sched.numThreads && mem.Valid() && addr + 4 < TWO32
    modifies sched.threads, mem.mappings
    ensures sched.Valid() && mem.Valid() && sched.Spare() == old(sched.Spare())
    ensures var ts := old(sched.View());
      sched.View() ==
        if value >= Signed(LoadedWord(mem.view, addr)) then Suspended(ts, sched.currentThread, arbiter, addr) else ts
  {
    hide sched.View, sched.Spare, sched.Valid, mem.Valid, Suspended, LoadedWord;
    var word := mem.Read32(addr);
    if value >= Signed(word) { SetCurrentThreadArbitrationSuspend(sched, arbiter, addr); }
  }

  /** The cases 2 and 4 of svcArbitrateAddress. */
  method AcquireDecrement<H>(sched: Scheduler<H>, mem: Segments, arbiter: u32, addr: u32, value: int)
    requires sched.Valid() && 0 <= sched.currentThread < sched.numThreads && mem.Valid() && addr + 4 < TWO32
    modifies sched.threads, mem`view, mem.mappings, mem.blocks
    ensures sched.Valid() && mem.Valid() && sched.Spare() == old(sched.Spare())
    ensures var y := Wrap(LoadedWord(old(mem.view), addr) - 1);
      && mem.view == Stored(old(mem.view), addr, Bytes(y, 4))
      && sched.View() ==
           if value >= Signed(y) then Suspended(old(sched.View()), sched.currentThread, arbiter, addr)
           else old(sched.View())
  {
    hide sched.View, sched.Spare, sched.Valid, mem.Valid, Suspended, LoadedWord, Stored, Bytes, Wrap;
    var word: int := mem.Read32(addr);
    var y := Wrap(word - 1);
    var _ := mem.Write32(addr, y);
    if value >= Signed(y) { SetCurrentThreadArbitrationSuspend(sched, arbiter, addr); }
  }

  /** svcArbitrateAddress; `valid` tells whether the handle is that of an arbiter. */
  method ArbitrateAddress<H>(sched: Scheduler<H>, mem: Segments, valid: bool) returns (ret: u32)
    requires sched.Valid() && 0 <= sched.currentThread < sched.numThreads && mem.Valid() && AllProper(sched.View())
    requires var r := sched.View()[sched.currentThread].ctx.r;
      Arbitration(sched.View(), sched.currentThread, mem.view, valid, r[0], r[1], r[2], Signed(r[3])).Some?
    modifies sched.threads, mem`view, mem.mappings, mem.blocks
    ensures sched.Valid() && mem.Valid() && sched.Spare() == old(sched.Spare())
    ensures var ts, t: nat := old(sched.View()), sched.currentThread; var r := ts[t].ctx.r;
      Some((sched.View(), mem.view, ret))
        == Arbitration(ts, t, old(mem.view), valid, r[0], r[1], r[2], Signed(r[3]))
  {
    hide sched.View, sched.Spare, sched.Valid, mem.Valid, Arbitration;
    var arbiter, addr, kind, value := Arguments(sched);
    ret := Arbitrate(sched, mem, valid, arbiter, addr, kind, Signed(value));
  }

  method Arbitrate<H>(sched: Scheduler<H>, mem: Segments, valid: bool, arbiter: u32, addr: u32, kind: u32, value: int)
    returns (ret: u32)
    requires sched.Valid() && 0 <= sched.currentThread < sched.numThreads && mem.Valid()
    requires Arbitration(sched.View(), sched.currentThread, mem.view, valid, arbiter, addr, kind, value).Some?
    modifies sched.threads, mem`view, mem.mappings, mem.blocks
    ensures sched.Valid() && mem.Valid() && sched.Spare() == old(sched.Spare())
    ensures Some((sched.View(), mem.view, ret))
      == Arbitration(old(sched.View()), sched.currentThread, old(mem.view), valid, arbiter, addr, kind, value)
  {
    hide sched.View, sched.Spare, sched.Valid, mem.Valid, Released, AllReleased, Suspended, LoadedWord, Stored, Bytes,
      Wrap, Signed;
    if addr % 4 != 0 { return 0xD8E0_07F1; }
    if !valid { return 0xD8E0_07F7; }
    ret := 0;
    match kind {
      case 0 =>
        if value < 0 { ReleaseAll(sched, arbiter, addr); } else { ReleaseSome(sched, arbiter, addr, value); }
      case 1 => Acquire(sched, mem, arbiter, addr, value);
      case 3 => Acquire(sched, mem, arbiter, addr, value);
      case 2 => AcquireDecrement(sched, mem, arbiter, addr, value);
      case 4 => AcquireDecrement(sched, mem, arbiter, addr, value);
      case _ => ret := 0xD8E0_93ED;
    }
  }

  /** svcSetThreadPriority */
  method SetPriority<H>(sched: Scheduler<H>)
    requires sched.Valid() && 0 <= sched.currentThread < sched.numThreads && AllProper(sched.View())
    modifies sched.threads
    ensures sched.Valid() && sched.Spare() == old(sched.Spare())
    ensures var ts := old(sched.View()); var r := ts[sched.currentThread].ctx.r;
      var id := FindId(ts, sched.currentThread, r[0]);
      sched.View() == if id < 0 then ts else ts[id := ts[id].(priority := Signed(r[1]))]
  {
    hide sched.View, sched.Spare, sched.Valid, FindId, Signed;
    var hand := Register(sched, 0);
    var prio := Register(sched, 1);
    var id := FindIdByHandle(sched, hand);
    if id != -1 { Prioritize(sched, id, Signed(prio)); }
  }

  method Prioritize<H>(sched: Scheduler<H>, id: nat, prio: int)
    requires sched.Valid() && id < sched.numThreads
    modifies sched.threads
    ensures sched.Valid() && sched.Spare() == old(sched.Spare())
    ensures sched.View() == old(sched.View())[id := old(sched.View())[id].(priority := prio)]
  {
    hide sched.s.Capture;
    sched.threads[id] := sched.threads[id].(priority := prio);
    assert sched.View() == old(sched.View())[id := old(sched.View())[id].(priority := prio)];
  }

  /** The priority that svcGetThreadPriority answers with. */
  function PriorityOf(ts: seq<Thread>, current: int, handle: u32): u32
    requires -1 <= current < |ts|
  {
    var id := FindId(ts, current, handle);
    if id < 0 then 0 else Wrap(ts[id].priority)
  }

  /** svcGetThreadPriority */
  method GetPriority<H>(sched: Scheduler<H>)
    requires sched.Valid() && 0 <= sched.currentThread < sched.numThreads
    modifies sched.s.cpu.Reg
    ensures sched.Valid() && sched.Spare() == old(sched.Spare()) && AllProper(old(sched.View()))
    ensures var ts, t: nat := old(sched.View()), sched.currentThread;
      sched.View() == ts[t := WithRegister(ts[t], 1, PriorityOf(ts, t, ts[t].ctx.r[1]))]
  {
    hide sched.s.Capture, FindId, sched.View, sched.Spare, WithRegister, Wrap;
    sched.ViewIsProper();
    var hand := Register(sched, 1);
    var prio: u32 := 0;
    var id := FindIdByHandle(sched, hand);
    if id != -1 { prio := Wrap(sched.threads[id].priority); }
    SetRegister(sched, 1, prio);
  }

  // ---- New threads -------------------------------------------------------

  /** What svcCreateThread sets in the entry that threads_New has prepared. */
  function Filled(e: Thread, prio: u32, entry: u32, arg: u32, sp: u32): (t: Thread)
    requires Proper(e)
    ensures Proper(t)
  {
    var thumb := entry % 2 == 1;
    e.(priority := Signed(prio),
       ctx := e.ctx.(r := e.ctx.r[0 := arg], sp := sp, r15 := entry - entry % 2, cpsr := if thumb then 0x3F else 0x1F,
                     t := thumb, mode := Cpu.RESUME))
  }

  /** A new thread: what is not set, such as the other registers, the flags and the service buffer, is what the entry
      had before. */
  function Created(e: Thread, handle: u32, prio: u32, entry: u32, arg: u32, sp: u32): (t: Thread)
    requires Proper(e)
    ensures Proper(t)
  {
    Filled(e.(state := RUNNING, waitList := [], handle := handle), prio, entry, arg, sp)
  }

  /** svcCreateThread; the handle is what handle_New has made. */
  method CreateThread<H>(sched: Scheduler<H>, hand: u32)
    requires sched.Valid() && 0 <= sched.currentThread < sched.numThreads < MAX_THREADS
    modifies sched`numThreads, sched.threads, sched.s.cpu.Reg
    ensures sched.Valid() && sched.Spare() == old(sched.Spare())[1..] && sched.numThreads == old(sched.numThreads) + 1
    ensures AllProper(old(sched.View())) && AllProper(old(sched.Spare()))
    ensures var ts, t: nat := old(sched.View()), sched.currentThread; var r := ts[t].ctx.r;
      var e := Created(old(sched.Spare())[0], hand, r[0], r[1], r[2], r[3]);
      sched.View() == ts[t := WithRegister(ts[t], 1, hand)] + [e]
  {
    hide sched.s.Capture, sched.Valid, sched.View, sched.Spare, WithRegister, Created, Proper, AllProper;
    sched.ViewIsProper();
    var prio, entry, arg, sp := Arguments(sched);
    AddThread(sched, hand, prio, entry, arg, sp);
    SetRegister(sched, 1, hand);
    ghost var ts, t: nat := old(sched.View()), sched.currentThread;
    UpdateBeforeLast(ts, t, WithRegister(ts[t], 1, hand), sched.View()[|ts|]);
  }

  lemma UpdateBeforeLast(ts: seq<Thread>, t: nat, x: Thread, y: Thread)
    requires t < |ts|
    ensures (ts + [y])[t := x] == ts[t := x] + [y] && (ts + [y])[t] == ts[t]
  {
  }

  method AddThread<H>(sched: Scheduler<H>, hand: u32, prio: u32, entry: u32, arg: u32, sp: u32)
    requires sched.Valid() && 0 <= sched.currentThread < sched.numThreads < MAX_THREADS
    modifies sched`numThreads, sched.threads
    ensures sched.Valid() && sched.Spare() == old(sched.Spare())[1..] && sched.numThreads == old(sched.numThreads) + 1
    ensures AllProper(old(sched.Spare()))
    ensures sched.View() == old(sched.View()) + [Created(old(sched.Spare())[0], hand, prio, entry, arg, sp)]
  {
    hide sched.s.Capture, sched.View, sched.Spare, Filled, Proper;
    sched.ViewIsProper();
    FilledTwice(sched.Spare()[0], hand, prio, entry, arg, sp);
    var n := sched.New(hand);
    FillEntry(sched, n, prio, entry, arg, sp);
  }

  /** The priority that threads_New sets is replaced. */
  lemma FilledTwice(e: Thread, handle: u32, prio: u32, entry: u32, arg: u32, sp: u32)
    requires Proper(e)
    ensures Filled(e.(state := RUNNING, waitList := [], handle := handle, priority := 30), prio, entry, arg, sp)
      == Created(e, handle, prio, entry, arg, sp)
  {
  }

  method FillEntry<H>(sched: Scheduler<H>, n: nat, prio: u32, entry: u32, arg: u32, sp: u32)
    requires sched.Valid() && n < sched.numThreads && n != sched.currentThread
    modifies sched.threads
    ensures sched.Valid() && sched.Spare() == old(sched.Spare()) && AllProper(old(sched.View()))
    ensures sched.View() == old(sched.View())[n := Filled(old(sched.View())[n], prio, entry, arg, sp)]
  {
    hide sched.s.Capture, Filled;
    sched.ViewIsProper();
    sched.threads[n] := Filled(sched.threads[n], prio, entry, arg, sp);
    assert sched.View() == old(sched.View())[n := Filled(old(sched.View())[n], prio, entry, arg, sp)];
  }
}
