/** Threads that share one emulator (src/arm11/threads.c around src/arm11/armemu.c), and the proof that they run as
    processors of their own that share one memory. */
module Multitasking {
  import opened Words
  import opened Architecture
  import opened Memory
  import opened Machine
  import opened Threads
  import opened SystemCalls
  import opened Processors
  import opened Traps
  import BlockTransfer
  import Cpu

  // ---- What happens in a turn --------------------------------------------

  /** A slice is made of instructions, of those that make a system call which acts on threads, and of what other calls
      do to the threads and the handles and write to memory. */
  datatype Action<!H> =
    | Instructions(n: nat)
    | Serve(call: Service)
    | Call(effect: (nat, H, seq<Task>) -> (H, seq<Task>))
    | Store(addr: u32, x: u8)

  /** The surroundings of a round: what handles answer, and what happens in the slice of each thread. */
  datatype World<!H> = World(ask: (H, u32) -> (Answer, H), script: nat -> seq<Action<H>>)

  // ---- The machine that is simulated -------------------------------------

  /** One processor for each thread, one memory, and the entries that new threads will find, as long as there are
      threads to create them. */
  datatype Multi<H> = Multi(handles: H, tasks: seq<Task>, memory: Flat, spare: seq<Thread>, behind: Thread)

  /** Task t has gone past the instruction that makes a system call. */
  function Passed(us: seq<Task>, t: nat): (vs: seq<Task>)
    requires t < |us|
    ensures |vs| == |us| && vs[t].core.r == us[t].core.r
  {
    us[t := us[t].(core := Next(us[t].core))]
  }

  /** One action of thread t. */
  function Act<H>(m: Multi<H>, t: nat, act: Action<H>): Option<Multi<H>> {
    if t >= |m.tasks| || !AllProperTasks(m.tasks) then None
    else
      match act
      case Serve(call) =>
        if !Trapped(m.tasks[t].core, m.memory, call) then None
        else
          (match Served(Passed(m.tasks, t), t, m.memory, m.spare, call)
           case None => None
           case Some(s) => Some(m.(tasks := s.0, memory := s.1, spare := s.2)))
      case Instructions(n) =>
        (match EmulatedTurns(m.tasks[t].core, m.memory, n)
         case None => None
         case Some(s) => Some(m.(tasks := m.tasks[t := m.tasks[t].(core := s.0)], memory := s.1)))
      case Call(effect) =>
        var (h, us) := effect(t, m.handles, m.tasks);
        if |us| == |m.tasks| && AllProperTasks(us) then Some(m.(handles := h, tasks := us)) else None
      case Store(addr, x) =>
        if addr + 1 < TWO32 then Some(m.(memory := Stored(m.memory, addr, [x]))) else None
  }

  lemma ActKeepsThreads<H>(m: Multi<H>, t: nat, act: Action<H>)
    requires Act(m, t, act).Some?
    ensures |m.tasks| <= |Act(m, t, act).value.tasks|
  {
    hide EmulatedTurns, WellFormed, AllProperTasks, Stored, Arbitration, FindId, Resumable, Trapped;
  }

  function Acts<H>(m: Multi<H>, t: nat, acts: seq<Action<H>>): Option<Multi<H>> {
    if acts == [] then Some(m)
    else
      match Acts(m, t, acts[..|acts| - 1])
      case None => None
      case Some(n) => Act(n, t, acts[|acts| - 1])
  }

  /** One turn: the thread's handles are asked if it waits; if it may run, its slice is run. */
  function Turn<H>(w: World<H>, t: nat, m: Multi<H>): Option<Multi<H>> {
    if t >= |m.tasks| || !ProperTask(m.tasks[t]) then None
    else
      var u := m.tasks[t];
      var (answers, h) := Consult(w.ask, m.handles, u.rest);
      var n := m.(handles := h, tasks := m.tasks[t := WakeTask(u, answers)]);
      if MayRun(u.rest, answers) then Acts(n, t, w.script(t)) else Some(n)
  }

  /** The turns from thread t on; threads that are created on the way have their turn as well. */
  function Turns<H>(w: World<H>, t: nat, m: Multi<H>): Option<Multi<H>>
    decreases MAX_THREADS - t
  {
    if t >= |m.tasks| || t >= MAX_THREADS then Some(m)
    else
      match Turn(w, t, m)
      case None => None
      case Some(n) => Turns(w, t + 1, n)
  }

  /** The stopped threads are removed; for each of them, a copy of the entry after the last thread is left behind. */
  function Removed<H>(m: Multi<H>): Multi<H> {
    var us := Living(m.tasks);
    var next := if m.spare == [] then m.behind else m.spare[0];
    m.(tasks := us, spare := if us == [] then [] else Copies(|m.tasks| - |us|, next) + m.spare)
  }

  /** A round: a turn for each thread, then the stopped ones are removed. */
  function Round<H>(w: World<H>, m: Multi<H>): Option<Multi<H>> {
    match Turns(w, 0, m)
    case None => None
    case Some(n) => Some(Removed(n))
  }

  function Rounds<H>(ws: seq<World<H>>, m: Multi<H>): Option<Multi<H>> {
    if ws == [] then Some(m)
    else
      match Rounds(ws[..|ws| - 1], m)
      case None => None
      case Some(n) => Round(ws[|ws| - 1], n)
  }

  /** What completes has completed every beginning of it. */
  lemma {:induction false} ActsPrefix<H>(m: Multi<H>, t: nat, acts: seq<Action<H>>, i: nat)
    requires i <= |acts| && Acts(m, t, acts).Some?
    ensures Acts(m, t, acts[..i]).Some?
    ensures i < |acts| ==> Acts(m, t, acts[..i + 1]).Some?
    ensures i < |acts| ==> Act(Acts(m, t, acts[..i]).value, t, acts[i]) == Acts(m, t, acts[..i + 1])
    decreases |acts|
  {
    hide Act;
    assert acts[..|acts|] == acts;
    if i < |acts| {
      assert acts[..i + 1][..i] == acts[..i];
      if i + 1 < |acts| {
        var last := |acts| - 1;
        assert acts[..last][..i] == acts[..i] && acts[..last][..i + 1] == acts[..i + 1];
        ActsPrefix(m, t, acts[..last], i);
      }
    }
  }

  lemma {:induction false} RoundsPrefix<H>(ws: seq<World<H>>, m: Multi<H>, i: nat)
    requires i <= |ws| && Rounds(ws, m).Some?
    ensures Rounds(ws[..i], m).Some?
    ensures i < |ws| ==> Rounds(ws[..i + 1], m).Some?
    ensures i < |ws| ==> Round(ws[i], Rounds(ws[..i], m).value) == Rounds(ws[..i + 1], m)
    decreases |ws|
  {
    hide Round;
    assert ws[..|ws|] == ws;
    if i < |ws| {
      assert ws[..i + 1][..i] == ws[..i];
      if i + 1 < |ws| {
        var last := |ws| - 1;
        assert ws[..last][..i] == ws[..i] && ws[..last][..i + 1] == ws[..i + 1];
        RoundsPrefix(ws[..last], m, i);
      }
    }
  }

  // ---- A thread that is alone --------------------------------------------

  /** The rounds give the only thread these numbers of instructions. */
  ghost predicate Solo<H>(ws: seq<World<H>>, ns: seq<nat>) {
    |ws| == |ns| && forall k :: 0 <= k < |ws| ==> ws[k].script(0) == [Instructions(ns[k])]
  }

  function Total(ns: seq<nat>): nat { if ns == [] then 0 else Total(ns[..|ns| - 1]) + ns[|ns| - 1] }

  /** The only thread and its memory after a run. */
  function Alone<H>(m: Multi<H>, s: Option<(Core, Flat)>): Option<Multi<H>>
    requires |m.tasks| == 1
  {
    match s case None => None case Some(p) => Some(m.(tasks := [m.tasks[0].(core := p.0)], memory := p.1))
  }

  /** Is there one thread, and does it run? */
  predicate Single<H>(m: Multi<H>) {
    |m.tasks| == 1 && ProperTask(m.tasks[0]) && m.tasks[0].rest.state == RUNNING
  }

  /** How a program is cut into slices makes no difference to it. */
  lemma {:induction false} SlicesJoin<H>(ws: seq<World<H>>, ns: seq<nat>, m: Multi<H>)
    requires Solo(ws, ns) && Single(m)
    ensures Rounds(ws, m) == Alone(m, EmulatedTurns(m.tasks[0].core, m.memory, Total(ns)))
  {
    hide EmulatedTurns, WellFormed, Unplaced, Round, Total;
    var u, f := m.tasks[0], m.memory;
    if ws == [] {
      NoTurns(u.core, f);
      assert m.tasks == [u];
    } else {
      var last := |ws| - 1;
      SlicesJoin(ws[..last], ns[..last], m);
      TotalStep(ns);
      TurnsJoin(u.core, f, Total(ns[..last]), ns[last]);
      var s := EmulatedTurns(u.core, f, Total(ns[..last]));
      if s.Some? { OneSlice(ws[last], ns[last], Alone(m, s).value); }
    }
  }

  lemma TotalStep(ns: seq<nat>)
    ensures Total([]) == 0
    ensures ns != [] ==> Total(ns) == Total(ns[..|ns| - 1]) + ns[|ns| - 1]
  {
  }

  lemma NoTurns(a: Core, f: Flat)
    requires WellFormed(a)
    ensures EmulatedTurns(a, f, 0) == Some((a, f)) && Total([]) == 0
  {
  }

  lemma OneSlice<H>(w: World<H>, n: nat, m: Multi<H>)
    requires w.script(0) == [Instructions(n)] && Single(m)
    ensures Round(w, m) == Alone(m, EmulatedTurns(m.tasks[0].core, m.memory, n))
  {
    hide EmulatedTurns, WellFormed, Unplaced, Proper;
    var u := m.tasks[0];
    assert m.tasks == [u] && m.tasks[0 := u] == m.tasks;
    assert Acts(m, 0, []) == Some(m) && w.script(0)[..0] == [];
    assert Acts(m, 0, w.script(0)) == Act(m, 0, Instructions(n));
    assert Turn(w, 0, m) == Act(m, 0, Instructions(n));
    var s := EmulatedTurns(u.core, m.memory, n);
    if s.Some? {
      var v := m.(tasks := [u.(core := s.value.0)], memory := s.value.1);
      assert m.tasks[0 := u.(core := s.value.0)] == v.tasks;
      assert Turns(w, 1, v) == Some(v);
      NoneRemoved(v);
    }
  }

  lemma NoneRemoved<H>(m: Multi<H>)
    requires |m.tasks| == 1 && m.tasks[0].rest.state == RUNNING
    ensures Removed(m) == m
  {
    assert Living(m.tasks[1..]) == [];
    assert Living(m.tasks) == m.tasks && Copies(0, m.behind) == [];
  }

  /** A program that is alone follows the manual, however it is cut into slices, if it never executes an instruction on
      which the interpreter departs from the manual. */
  lemma SoloFollowsManual<H>(ws: seq<World<H>>, ns: seq<nat>, m: Multi<H>)
    requires Solo(ws, ns) && Single(m) && ManualTurns(m.tasks[0].core, m.memory, Total(ns)).Some?
    requires forall k: nat | k < Total(ns) ::
      var s := ManualTurns(m.tasks[0].core, m.memory, k); s.Some? && !Departs(s.value.0, s.value.1)
    ensures Rounds(ws, m) == Alone(m, ManualTurns(m.tasks[0].core, m.memory, Total(ns)))
  {
    hide EmulatedTurns, ManualTurns, WellFormed, Unplaced, Rounds, Departs;
    SlicesJoin(ws, ns, m);
    MachineFollowsManual(m.tasks[0].core, m.memory, Total(ns));
  }

  // ---- Service buffers ---------------------------------------------------

  /** All entries of the table as far as the tasks know them. */
  function Entries<H>(m: Multi<H>): seq<Thread> { Rests(m.tasks) + m.spare }

  /** Has every entry a service buffer of its own? */
  ghost predicate OwnBuffers<H>(m: Multi<H>) {
    forall i, j :: 0 <= i < j < |Entries(m)| ==> Entries(m)[i].servaddr != Entries(m)[j].servaddr
  }

  lemma OwnBuffersFirst<H>(handles: H, handle: u32, pc: u32, sp: u32, f: Flat, behind: Thread)
    ensures OwnBuffers(FirstState(handles, handle, pc, sp, f, behind))
  {
    var m := FirstState(handles, handle, pc, sp, f, behind);
    assert forall i :: 0 <= i < |Entries(m)| ==> Entries(m)[i].servaddr == Buffer(i);
  }

  /** The removal of stopped threads from a table that is not full keeps the service buffers apart exactly if there is
      nothing to remove, since the entries that become free are copies of one entry. */
  lemma RemovalSharesBuffers<H>(m: Multi<H>)
    requires OwnBuffers(m) && m.spare != [] && Living(m.tasks) != []
    ensures OwnBuffers(Removed(m)) <==> Living(m.tasks) == m.tasks
  {
    hide Living;
    var us := Living(m.tasks);
    var c := |m.tasks| - |us|;
    LivingOfAll(m.tasks);
    if c == 0 {
      assert Copies(0, m.spare[0]) + m.spare == m.spare;
    } else {
      var es := Entries(Removed(m));
      assert es[|us|] == m.spare[0] && es[|us| + c] == m.spare[0];
    }
  }

  lemma {:induction false} LivingOfAll(us: seq<Task>)
    ensures |Living(us)| == |us| <==> Living(us) == us
  {
    if us != [] { LivingOfAll(us[1..]); }
  }

  /** Two threads that are created after a removal share a service buffer. */
  lemma NewThreadsShareBuffer<H>(m: Multi<H>, t: nat, first: u32, second: u32)
    requires m.spare != [] && Living(m.tasks) != [] && Living(m.tasks) != m.tasks
    requires Act(Removed(m), t, Serve(CreateThread(first))).Some?
    requires Act(Act(Removed(m), t, Serve(CreateThread(first))).value, t, Serve(CreateThread(second))).Some?
    ensures var n := Act(Act(Removed(m), t, Serve(CreateThread(first))).value, t, Serve(CreateThread(second))).value;
      var last := |n.tasks| - 1; last > 0 && n.tasks[last].rest.servaddr == n.tasks[last - 1].rest.servaddr
  {
    hide Living, Act;
    LivingOfAll(m.tasks);
    var a := Removed(m);
    var b := Act(a, t, Serve(CreateThread(first))).value;
    CreationTakes(a, t, first);
    CreationTakes(b, t, second);
    assert a.spare[0] == m.spare[0] && a.spare[1] == m.spare[0];
  }

  /** A new thread comes last and has the service buffer of the first unused entry; the others keep theirs. */
  lemma CreationTakes<H>(m: Multi<H>, t: nat, handle: u32)
    requires Act(m, t, Serve(CreateThread(handle))).Some?
    ensures var n := Act(m, t, Serve(CreateThread(handle))).value; var last := |m.tasks|;
      && m.spare != [] && n.spare == m.spare[1..] && |n.tasks| == last + 1
      && n.tasks[last].rest.servaddr == m.spare[0].servaddr
      && forall i :: 0 <= i < last ==> n.tasks[i].rest == m.tasks[i].rest
  {
    hide Resumable, ProperTask, CoreOf, Unplaced, Trapped;
  }

  // ---- The emulator ------------------------------------------------------

  /** A resumable thread on the CPU is what the interpreter calls ready. */
  lemma ReadyOnCpu(s: Live)
    requires s.Valid() && s.cpu.Valid()
    ensures Resumable(s.Capture()) <==> s.cpu.Ready()
    ensures s.cpu.Between() == CoreOf(s.Capture())
  {
    hide Cpu.TableReady, Wrap;
    var r := s.cpu.Reg;
    assert r[..15] == r[..13] + [r[13], r[14]];
  }

  /** The interpreter changes no more of the live CPU than its part. */
  twostate lemma OnlyCoreMoved(s: Live)
    requires s.Valid() && unchanged(s) && unchanged(s.ExtReg) && unchanged(s.VFP)
    ensures Unplaced(s.Capture()) == old(Unplaced(s.Capture()))
  {
  }

  /** The first thread of a program. */
  function FirstTask(handle: u32, pc: u32, sp: u32): Task {
    Task(Cpu.InitialCore(pc, sp), ZeroThread().(handle := handle, priority := 30, servaddr := Buffer(0)))
  }

  /** The state in which a program starts. */
  function FirstState<H>(handles: H, handle: u32, pc: u32, sp: u32, f: Flat, behind: Thread): Multi<H> {
    Multi(handles, [FirstTask(handle, pc, sp)], f, UnusedEntries(), behind)
  }

  function UnusedEntries(): (es: seq<Thread>)
    ensures |es| == MAX_THREADS - 1
  {
    WithBuffers(Copies(MAX_THREADS - 1, ZeroThread()), 1)
  }

  /** arm11_Init, threads_New for the first thread, and what the loader does: the service buffers and arm11_SetPCSP. */
  method Start<H>(mem: Segments, handles: H, behind: Thread, handle: u32, pc: u32, sp: u32) returns (sys: System<H>)
    requires pc % 4 == 0 && Proper(behind) && mem.Valid() && mem.numMappings > 0
    ensures sys.StandsFor(Some(FirstState(handles, handle, pc, sp, mem.view, behind))) && sys.emu.mem == mem
    ensures fresh(sys.sched) && fresh(sys.sched.threads) && fresh(sys.sched.s)
    ensures fresh(sys.sched.s.cpu) && fresh(sys.sched.s.cpu.Reg) && fresh(sys.sched.s.ExtReg) && fresh(sys.sched.s.VFP)
  {
    hide Cpu.TableReady, Segments.Valid, BlockTransfer.ListTable, AllResumable, Cpu.InitialCore, FirstTask,
      Scheduler.View, Scheduler.Spare, Live.Capture, System.Valid, System.View;
    var sched, emu := Prepare(mem, handles, behind, handle, pc, sp);
    sys := Assemble(sched, emu);
  }

  /** What is saved right after initialization. */
  function FirstContext(): Context {
    Initial(seq(16, _ => 0), 0, Cpu.RESUME, Flags(false, false, false, false), false, RESET_BITS, RESET_PSR)
  }

  /** Is this a CPU right after its initialization? */
  ghost predicate JustInitialized(live: Live)
    reads live, live.cpu, live.cpu.Reg, live.cpu.ImmedTable, live.ExtReg, live.VFP
  {
    && live.Valid() && live.cpu.Ready() && live.cpu.NextInstr == Cpu.RESUME
    && live.Capture() == FirstContext() && live.cpu.Between() == Cpu.InitialCore(0, 0)
  }

  /** Does the table hold one thread that has not run yet, and otherwise unused entries? */
  ghost predicate HoldsFirst<H>(sched: Scheduler<H>, handle: u32, pc: u32, sp: u32)
    reads sched, sched.threads, sched.s, sched.s.cpu, sched.s.cpu.Reg, sched.s.ExtReg, sched.s.VFP
  {
    && sched.Valid() && sched.numThreads == 1 && AllResumable(sched.View())
    && Tasks(sched.View()) == [FirstTask(handle, pc, sp)] && sched.Spare() == UnusedEntries()
  }

  method FirstTable<H>(live: Live, handles: H, behind: Thread, handle: u32, pc: u32, sp: u32)
    returns (sched: Scheduler<H>)
    requires pc % 4 == 0 && Proper(behind) && JustInitialized(live)
    modifies live.cpu`pc, live.cpu.Reg
    ensures HoldsFirst(sched, handle, pc, sp) && live.cpu.Ready() && fresh(sched) && fresh(sched.threads)
    ensures sched.s == live && sched.handles == handles && sched.currentThread == 0 && sched.behind == behind
  {
    hide Cpu.TableReady, Resumable, ZeroThread, CoreOf, Unplaced, Cpu.InitialCore, FirstContext, Scheduler.View,
      Scheduler.Spare, Live.Capture;
    sched := FirstThread(live, handles, behind, handle);
    InitialMoves(pc, sp);
    SetStart(sched, pc, sp);
    FirstIsFirst(sched.View(), handle, pc, sp);
  }

  method Prepare<H>(mem: Segments, handles: H, behind: Thread, handle: u32, pc: u32, sp: u32)
    returns (sched: Scheduler<H>, emu: Emulator)
    requires pc % 4 == 0 && Proper(behind) && mem.Valid()
    ensures HoldsFirst(sched, handle, pc, sp) && emu.Ready() && emu.mem == mem && sched.s.cpu == emu.cpu
    ensures sched.handles == handles && sched.behind == behind
    ensures fresh(sched) && fresh(sched.threads) && fresh(sched.s) && fresh(emu.cpu) && fresh(emu.cpu.Reg)
    ensures fresh(sched.s.ExtReg) && fresh(sched.s.VFP)
  {
    hide Cpu.TableReady, Segments.Valid, BlockTransfer.ListTable, AllResumable, Cpu.InitialCore, FirstContext,
      FirstTask, Scheduler.View, Scheduler.Spare, Live.Capture, Proper, HoldsFirst;
    var live;
    emu, live := InitCpu(mem);
    sched := FirstTable(live, handles, behind, handle, pc, sp);
  }

  method Assemble<H>(sched: Scheduler<H>, emu: Emulator) returns (sys: System<H>)
    requires sched.s.cpu == emu.cpu && sched.Valid() && emu.Ready() && emu.mem.numMappings > 0
    requires AllResumable(sched.View())
    requires sched.numThreads > 0
    ensures sys.Valid() && sys.sched == sched && sys.emu == emu
    ensures sys.View() == Multi(sched.handles, Tasks(sched.View()), emu.mem.view, sched.Spare(), sched.behind)
  {
    hide Cpu.TableReady, Segments.Valid, BlockTransfer.ListTable, Resumable, ProperTask, TaskOf, Scheduler.View,
      Scheduler.Spare;
    sys := new System(sched, emu);
  }

  /** arm11_Init */
  method InitCpu(mem: Segments) returns (emu: Emulator, live: Live)
    requires mem.Valid()
    ensures emu.Ready() && emu.mem == mem && live.Valid() && live.cpu == emu.cpu && emu.cpu.NextInstr == Cpu.RESUME
    ensures fresh(emu.cpu) && fresh(emu.cpu.Reg) && fresh(emu.cpu.ImmedTable) && fresh(emu.bitList)
    ensures fresh(live) && fresh(live.ExtReg) && fresh(live.VFP)
    ensures emu.cpu.Between() == Cpu.InitialCore(0, 0)
    ensures live.Capture() == FirstContext()
  {
    hide Cpu.TableReady, Segments.Valid, BlockTransfer.ListTable, Initial, Cpu.InitialCore, Live.Capture;
    emu := Init(mem);
    live := new Live(emu.cpu);
  }

  /** A table with one thread, which is on the CPU. */
  method FirstThread<H>(live: Live, handles: H, behind: Thread, handle: u32) returns (sched: Scheduler<H>)
    requires live.Valid() && Proper(behind)
    ensures sched.Valid() && fresh(sched) && fresh(sched.threads) && sched.s == live && sched.handles == handles
    ensures sched.currentThread == 0 && sched.behind == behind && sched.Spare() == UnusedEntries()
    ensures sched.View() ==
      [ZeroThread().(ctx := live.Capture(), handle := handle, priority := 30, servaddr := Buffer(0))]
  {
    hide live.Capture, ZeroThread;
    sched := new Scheduler(live, handles, behind);
    OneMoreCopy(MAX_THREADS - 1, ZeroThread());
    var _ := sched.New(handle);
    sched.SetBuffers();
  }

  /** arm11_SetPCSP, as it is seen in the table. */
  method SetStart<H>(sched: Scheduler<H>, pc: u32, sp: u32)
    requires sched.Valid() && sched.s.cpu.Ready() && sched.numThreads == 1 && sched.currentThread == 0
    requires sched.s.cpu.NextInstr >= Cpu.PRIMEPIPE && pc % Size(sched.s.cpu.TFlag) == 0
    modifies sched.s.cpu`pc, sched.s.cpu.Reg
    ensures sched.Valid() && sched.s.cpu.Ready() && sched.numThreads == 1 && sched.Spare() == old(sched.Spare())
    ensures var t, a := old(sched.View()[0]), old(sched.s.cpu.Between()); var u := sched.View()[0];
      && u == t.(ctx := u.ctx) && Sized(u.ctx) && Resumable(u.ctx) && CoreOf(u.ctx) == a.(r := a.r[13 := sp], pc := pc)
      && Unplaced(u.ctx) == Unplaced(old(sched.s.Capture()))
  {
    hide Cpu.TableReady, Unplaced, CoreOf, Resumable, sched.View, sched.Spare, sched.s.Capture;
    sched.ViewIsProper();
    sched.s.cpu.SetPcSp(pc, sp);
    sched.ViewIsProper();
    ReadyOnCpu(sched.s);
    OnlyCoreMoved(sched.s);
  }

  lemma InitialMoves(pc: u32, sp: u32)
    ensures var a := Cpu.InitialCore(0, 0); a.(r := a.r[13 := sp], pc := pc) == Cpu.InitialCore(pc, sp)
  {
    assert Cpu.InitialCore(0, 0).r[13 := sp] == Cpu.InitialCore(pc, sp).r;
  }

  /** The table of a thread that has not run yet. */
  lemma FirstIsFirst(ts: seq<Thread>, handle: u32, pc: u32, sp: u32)
    requires |ts| == 1 && Proper(ts[0]) && Resumable(ts[0].ctx) && CoreOf(ts[0].ctx) == Cpu.InitialCore(pc, sp)
    requires ts[0] == ZeroThread().(ctx := ts[0].ctx, handle := handle, priority := 30, servaddr := Buffer(0))
    requires Unplaced(ts[0].ctx) == Unplaced(FirstContext())
    ensures AllResumable(ts) && Tasks(ts) == [FirstTask(handle, pc, sp)]
  {
    hide CoreOf, Resumable, ProperTask, Proper, Cpu.InitialCore;
    var zero, k := ZeroThread().ctx, Unplaced(FirstContext());
    assert k.r == zero.r && k.fpu == zero.fpu;
    assert k == zero;
  }

  /** The interpreter runs the thread on the CPU. */
  method RunLive(s: Live, emu: Emulator, n: nat)
    requires s.cpu == emu.cpu && s.Valid() && s.cpu.Valid() && emu.mem.Valid()
    requires BlockTransfer.ListTable(emu.bitList[..])
    requires Resumable(s.Capture()) && EmulatedTurns(CoreOf(s.Capture()), emu.mem.view, n).Some?
    modifies emu.cpu, emu.cpu.Reg, emu.mem`view, emu.mem.mappings, emu.mem.blocks
    ensures s.Valid() && s.cpu.Valid() && emu.mem.Valid() && BlockTransfer.ListTable(emu.bitList[..])
    ensures Resumable(s.Capture()) && Unplaced(s.Capture()) == Unplaced(old(s.Capture()))
    ensures Some((CoreOf(s.Capture()), emu.mem.view)) == EmulatedTurns(CoreOf(old(s.Capture())), old(emu.mem.view), n)
  {
    hide Cpu.TableReady, Segments.Valid, BlockTransfer.ListTable, Resumable, CoreOf, Unplaced, s.Capture, EmulatedTurns,
      WellFormed;
    ReadyOnCpu(s);
    emu.Run(n);
    ReadyOnCpu(s);
    OnlyCoreMoved(s);
  }

  /** Fetches the instruction of the thread on the CPU, and goes past it. */
  method FetchLive(s: Live, emu: Emulator) returns (instr: bv32, thumb: bool)
    requires s.cpu == emu.cpu && s.Valid() && s.cpu.Valid() && emu.mem.Valid() && Resumable(s.Capture())
    requires CoreOf(s.Capture()).pc + 4 < TWO32
    modifies emu.cpu`pc, emu.cpu`NextInstr, emu.cpu.Reg, emu.mem.mappings
    ensures s.Valid() && s.cpu.Valid() && emu.mem.Valid()
    ensures Resumable(s.Capture()) && Unplaced(s.Capture()) == Unplaced(old(s.Capture()))
    ensures var a := CoreOf(old(s.Capture()));
      CoreOf(s.Capture()) == Next(a) && instr == Fetch(CodeIn(emu.mem.view), a) && thumb == a.thumb
  {
    hide Cpu.TableReady, Segments.Valid, Resumable, CoreOf, Unplaced, s.Capture, Fetch, CodeIn, Next;
    ReadyOnCpu(s);
    s.cpu.Advance();
    thumb := s.cpu.TFlag;
    instr := emu.FetchInstruction();
    s.cpu.NextInSequence();
    ReadyOnCpu(s);
    OnlyCoreMoved(s);
  }

  /** A system call of the current thread changes the handles and the threads. */
  method Apply<H>(sched: Scheduler<H>, effect: (nat, H, seq<Task>) -> (H, seq<Task>))
    requires sched.Valid() && 0 <= sched.currentThread < sched.numThreads && AllResumable(sched.View())
    requires var us := effect(sched.currentThread, sched.handles, Tasks(sched.View())).1;
      |us| == |sched.View()| && AllProperTasks(us)
    modifies sched`handles, sched.threads, sched.s, sched.s.cpu, sched.s.cpu.Reg, sched.s.ExtReg, sched.s.VFP
    ensures sched.Valid() && AllResumable(sched.View()) && sched.Spare() == old(sched.Spare())
    ensures (sched.handles, Tasks(sched.View())) ==
      effect(sched.currentThread, old(sched.handles), Tasks(old(sched.View())))
  {
    hide Resumable, ProperTask, ThreadOf, TaskOf, sched.View, sched.Spare, sched.s.Capture;
    var ts := sched.Table();
    var (h, us) := effect(sched.currentThread, sched.handles, Tasks(ts));
    TasksOfThreads(us);
    sched.handles := h;
    sched.Install(ThreadsOf(us));
  }

  class System<H> {
    const sched: Scheduler<H>
    const emu: Emulator

    constructor (sched: Scheduler<H>, emu: Emulator)
      requires sched.s.cpu == emu.cpu
      ensures this.sched == sched && this.emu == emu
    {
      this.sched, this.emu := sched, emu;
    }

    /** The CPU, the tables and the memory are in order, and every thread can be resumed. */
    ghost predicate Valid()
      reads sched, sched.threads, sched.s, sched.s.cpu, sched.s.cpu.Reg, sched.s.ExtReg, sched.s.VFP, emu
      reads emu.cpu, emu.cpu.Reg, emu.cpu.ImmedTable, emu.mem, emu.mem.mappings, emu.mem.blocks, emu.bitList
    {
      && sched.Valid() && emu.cpu == sched.s.cpu && emu.cpu.Valid() && emu.mem.Valid() && emu.mem.numMappings > 0
      && BlockTransfer.ListTable(emu.bitList[..]) && AllResumable(sched.View())
    }

    /** The processors and the memory that the emulator stands for. */
    ghost function View(): (m: Multi<H>)
      requires Valid()
      reads sched, sched.threads, sched.s, sched.s.cpu, sched.s.cpu.Reg, sched.s.ExtReg, sched.s.VFP, emu
      reads emu.cpu, emu.cpu.Reg, emu.cpu.ImmedTable, emu.mem, emu.mem.mappings, emu.mem.blocks, emu.bitList
      ensures AllProperTasks(m.tasks) && |m.tasks| == sched.numThreads
    {
      TasksAreProper(sched.View());
      Multi(sched.handles, Tasks(sched.View()), emu.mem.view, if sched.numThreads == 0 then [] else sched.Spare(),
            sched.behind)
    }

    /** Is the system in order, and does it stand for this? */
    ghost predicate StandsFor(m: Option<Multi<H>>)
      reads sched, sched.threads, sched.s, sched.s.cpu, sched.s.cpu.Reg, sched.s.ExtReg, sched.s.VFP, emu
      reads emu.cpu, emu.cpu.Reg, emu.cpu.ImmedTable, emu.mem, emu.mem.mappings, emu.mem.blocks, emu.bitList
    {
      Valid() && m == Some(View())
    }

    /** Instructions of the current thread. */
    method RunInstructions(n: nat)
      requires Valid() && 0 <= sched.currentThread < sched.numThreads
      requires Act(View(), sched.currentThread, Instructions(n)).Some?
      modifies emu.cpu, emu.cpu.Reg, emu.mem`view, emu.mem.mappings, emu.mem.blocks
      ensures Valid() && Some(View()) == Act(old(View()), sched.currentThread, Instructions(n))
    {
      hide Cpu.TableReady, Segments.Valid, BlockTransfer.ListTable, Resumable, CoreOf, Unplaced, sched.s.Capture,
        EmulatedTurns, WellFormed, AllProperTasks, Proper;
      ghost var t: nat := sched.currentThread;
      ghost var ts := sched.View();
      sched.ViewIsProper();
      RunLive(sched.s, emu, n);
      TaskMoves(ts, t, sched.s.Capture());
      assert sched.View() == ts[t := ts[t].(ctx := sched.s.Capture())];
    }

    /** An instruction of the thread on the CPU that makes a system call which acts on threads. */
    method ServeThread(call: Service)
      requires Valid() && 0 <= sched.currentThread < sched.numThreads
      requires Act(View(), sched.currentThread, Serve(call)).Some?
      modifies sched`numThreads, sched.threads, emu.cpu`pc, emu.cpu`NextInstr, emu.cpu.Reg
      modifies emu.mem`view, emu.mem.mappings, emu.mem.blocks
      ensures Valid() && Some(View()) == Act(old(View()), sched.currentThread, Serve(call))
    {
      hide Valid, View, Served, IsThumbSwi, IsSwi, DecodeSwi, SwiNumber, AsksFor, Fetch, CodeIn, AllProperTasks;
      EmulatorIsCurrent();
      var instr, thumb := EnterTrap();
      Dispatch(SwiNumber(if thumb then DecodeSwi(instr) else instr), call);
    }

    /** Fetches the instruction and leaves the pipeline in sequence. */
    method EnterTrap() returns (instr: bv32, thumb: bool)
      requires Valid() && 0 <= sched.currentThread < sched.numThreads
      requires View().tasks[sched.currentThread].core.pc + 4 < TWO32
      modifies emu.cpu`pc, emu.cpu`NextInstr, emu.cpu.Reg, emu.mem.mappings
      ensures Valid() && |old(View()).tasks[sched.currentThread].core.r| == 15
      ensures var m, t: nat := old(View()), sched.currentThread;
        && View() == m.(tasks := Passed(m.tasks, t)) && thumb == m.tasks[t].core.thumb
        && instr == Fetch(CodeIn(m.memory), m.tasks[t].core)
    {
      hide Cpu.TableReady, Segments.Valid, BlockTransfer.ListTable, Resumable, CoreOf, Unplaced, sched.s.Capture,
        WellFormed, AllProperTasks, Proper, Fetch, CodeIn, Next;
      ghost var t: nat := sched.currentThread;
      ghost var ts := sched.View();
      ArgumentsAre();
      sched.ViewIsProper();
      instr, thumb := FetchLive(sched.s, emu);
      TaskMoves(ts, t, sched.s.Capture());
      assert sched.View() == ts[t := ts[t].(ctx := sched.s.Capture())];
    }

    /** svc_Execute, for the calls that act on threads. */
    method Dispatch(num: bv32, call: Service)
      requires Valid() && 0 <= sched.currentThread < sched.numThreads && AsksFor(num, call)
      requires var m, t: nat := View(), sched.currentThread;
        |m.tasks[t].core.r| == 15 && Served(m.tasks, t, m.memory, m.spare, call).Some?
      modifies sched`numThreads, sched.threads, sched.s.cpu.Reg, emu.mem`view, emu.mem.mappings, emu.mem.blocks
      ensures Valid() && |old(View()).tasks[sched.currentThread].core.r| == 15
      ensures var m, t: nat := old(View()), sched.currentThread; var s := Served(m.tasks, t, m.memory, m.spare, call);
        s.Some? && View() == m.(tasks := s.value.0, memory := s.value.1, spare := s.value.2)
    {
      hide Valid, View, Exited, Closed, Prioritized, Asked, Waited, Arbitrated, Grown;
      match num {
        case 8 => Create(call.handle);
        case 9 => Exit();
        case 0xB => TellPriority();
        case 0xC => ChangePriority();
        case 0x22 => ArbitrateNow(call.valid);
        case 0x23 => Close();
        case _ => Wait(call.list, call.all, call.ret);
      }
    }

    /** The arguments and the answer of a system call are registers of the thread on the CPU. */
    lemma ArgumentsAre()
      requires Valid() && 0 <= sched.currentThread < sched.numThreads
      ensures AllProper(sched.View()) && |View().tasks[sched.currentThread].core.r| == 15
      ensures View().tasks[sched.currentThread].core.r[..13] == sched.View()[sched.currentThread].ctx.r
      ensures Rests(View().tasks) == Stripped(sched.View())
    {
      hide Cpu.TableReady, Segments.Valid, BlockTransfer.ListTable, Resumable, Unplaced, sched.s.Capture, sched.View,
        sched.Spare, ProperTask;
      RestsOfTasks(sched.View());
    }

    /** Register n of the thread on the CPU. */
    method Answer(n: nat, x: u32)
      requires Valid() && n < 13 && 0 <= sched.currentThread < sched.numThreads
      modifies sched.s.cpu.Reg
      ensures Valid() && |old(View()).tasks[sched.currentThread].core.r| == 15
      ensures View() == old(View()).(tasks := Answered(old(View()).tasks, sched.currentThread, n, x))
    {
      hide Cpu.TableReady, Segments.Valid, BlockTransfer.ListTable, Resumable, CoreOf, Unplaced, sched.s.Capture,
        sched.View, sched.Spare, Proper, TaskOf, ProperTask, Answered;
      RegisterChanges(sched.View(), sched.currentThread, n, x);
      SetRegister(sched, n, x);
    }

    /** ExitThread: case 9 of svc_Execute. */
    method Exit()
      requires Valid() && 0 <= sched.currentThread < sched.numThreads
      modifies sched.threads, sched.s.cpu.Reg
      ensures Valid() && |old(View()).tasks[sched.currentThread].core.r| == 15
      ensures View() == old(View()).(tasks := Exited(old(View()).tasks, sched.currentThread))
    {
      hide Cpu.TableReady, Segments.Valid, BlockTransfer.ListTable, Resumable, CoreOf, Unplaced, sched.s.Capture,
        sched.View, sched.Spare, Proper, TaskOf, ProperTask, Answered, WithRests;
      ghost var us, t: nat := View().tasks, sched.currentThread;
      Answer(0, 0);
      RestsKept(us, t, 0, 0);
      ghost var ts := sched.View();
      StillProper(ts[t], STOPPED, 0);
      RestChanges(ts, t, ts[t].(state := STOPPED));
      StopThread(sched, sched.currentThread);
    }

    /** svcCloseHandle, for the handle of a thread. */
    method Close()
      requires Valid() && 0 <= sched.currentThread < sched.numThreads
      modifies sched.threads, sched.s.cpu.Reg
      ensures Valid() && |old(View()).tasks[sched.currentThread].core.r| == 15
      ensures View() == old(View()).(tasks := Closed(old(View()).tasks, sched.currentThread))
    {
      hide Cpu.TableReady, Segments.Valid, BlockTransfer.ListTable, Resumable, CoreOf, Unplaced, sched.s.Capture,
        sched.View, sched.Spare, Proper, TaskOf, ProperTask, FindId, Answered, WithRests;
      ArgumentsAre();
      var handle := Register(sched, 0);
      var ret := StopByHandle(handle);
      Answer(0, ret);
    }

    /** thread_CloseHandle */
    method StopByHandle(handle: u32) returns (ret: u32)
      requires Valid() && 0 <= sched.currentThread < sched.numThreads
      modifies sched.threads
      ensures Valid()
      ensures var m := old(View()); var rests := Rests(m.tasks); var id := FindId(rests, sched.currentThread, handle);
        var rs := if id < 0 then rests else rests[id := rests[id].(state := STOPPED)];
        View() == m.(tasks := WithRests(m.tasks, rs)) && ret == if id < 0 then 0xFFFF_FFFF else 0
    {
      hide Cpu.TableReady, Segments.Valid, BlockTransfer.ListTable, Resumable, CoreOf, Unplaced, sched.s.Capture,
        sched.View, sched.Spare, Proper, TaskOf, ProperTask, FindId, PriorityOf, WithRests;
      ArgumentsAre();
      ghost var ts := sched.View();
      ghost var id := FindId(ts, sched.currentThread, handle);
      SameId(ts, sched.currentThread, handle);
      if id >= 0 {
        StillProper(ts[id], STOPPED, 0);
        RestChanges(ts, id, ts[id].(state := STOPPED));
      } else {
        NothingChanges(View().tasks);
      }
      ret := CloseHandle(sched, handle);
    }

    /** svcSetThreadPriority */
    method ChangePriority()
      requires Valid() && 0 <= sched.currentThread < sched.numThreads
      modifies sched.threads, sched.s.cpu.Reg
      ensures Valid() && |old(View()).tasks[sched.currentThread].core.r| == 15
      ensures View() == old(View()).(tasks := Prioritized(old(View()).tasks, sched.currentThread))
    {
      hide Cpu.TableReady, Segments.Valid, BlockTransfer.ListTable, Resumable, CoreOf, Unplaced, sched.s.Capture,
        sched.View, sched.Spare, Proper, TaskOf, ProperTask, FindId, PriorityOf, Answered, WithRests, Signed;
      ghost var us, t: nat := View().tasks, sched.currentThread;
      ArgumentsAre();
      ghost var ts := sched.View();
      ghost var r := ts[t].ctx.r;
      ghost var id := FindId(ts, t, r[0]);
      SameId(ts, t, r[0]);
      if id >= 0 {
        StillProper(ts[id], STOPPED, Signed(r[1]));
        RestChanges(ts, id, ts[id].(priority := Signed(r[1])));
      } else {
        NothingChanges(us);
      }
      SystemCalls.SetPriority(sched);
      Answer(0, 0);
    }

    /** svcGetThreadPriority */
    method TellPriority()
      requires Valid() && 0 <= sched.currentThread < sched.numThreads
      modifies sched.s.cpu.Reg
      ensures Valid() && |old(View()).tasks[sched.currentThread].core.r| == 15
      ensures View() == old(View()).(tasks := Asked(old(View()).tasks, sched.currentThread))
    {
      hide Cpu.TableReady, Segments.Valid, BlockTransfer.ListTable, Resumable, CoreOf, Unplaced, sched.s.Capture,
        sched.View, sched.Spare, Proper, TaskOf, ProperTask, FindId, PriorityOf, Answered;
      ghost var t: nat := sched.currentThread;
      ArgumentsAre();
      ghost var ts := sched.View();
      ghost var handle := ts[t].ctx.r[1];
      SameId(ts, t, handle);
      RegisterChanges(ts, t, 1, PriorityOf(ts, t, handle));
      SystemCalls.GetPriority(sched);
      Answer(0, 0);
    }

    /** The end of svcWaitSynchronization1, svcWaitSynchronizationN and svcSendSyncRequest for a thread that has to
        wait. */
    method Wait(list: seq<u32>, all: bool, ret: u32)
      requires Valid() && 0 <= sched.currentThread < sched.numThreads && |list| < TWO32
      modifies sched.threads, sched.s.cpu.Reg
      ensures Valid() && |old(View()).tasks[sched.currentThread].core.r| == 15
      ensures View() == old(View()).(tasks := Waited(old(View()).tasks, sched.currentThread, list, all, ret))
    {
      hide Cpu.TableReady, Segments.Valid, BlockTransfer.ListTable, Resumable, CoreOf, Unplaced, sched.s.Capture,
        sched.View, sched.Spare, Proper, TaskOf, ProperTask, Answered, WithRests;
      ghost var t: nat := sched.currentThread;
      ArgumentsAre();
      ghost var ts := sched.View();
      WaitingIsProper(ts[t], list, all);
      RestChanges(ts, t, WaitingFor(ts[t], list, all));
      SetCurrentThreadWaitList(sched, list, all);
      Answer(0, ret);
    }

    /** svcArbitrateAddress */
    method ArbitrateNow(valid: bool)
      requires Valid() && 0 <= sched.currentThread < sched.numThreads
      requires |View().tasks[sched.currentThread].core.r| == 15
      requires Arbitrated(View().tasks, sched.currentThread, View().memory, valid).Some?
      modifies sched.threads, sched.s.cpu.Reg, emu.mem`view, emu.mem.mappings, emu.mem.blocks
      ensures Valid() && |old(View()).tasks[sched.currentThread].core.r| == 15
      ensures var m := old(View()); var a := Arbitrated(m.tasks, sched.currentThread, m.memory, valid);
        a.Some? && View() == m.(tasks := a.value.0, memory := a.value.1)
    {
      hide Valid, View, Judged, Answered;
      var ret := ArbitrateInTable(valid);
      Answer(0, ret);
    }

    method ArbitrateInTable(valid: bool) returns (ret: u32)
      requires Valid() && 0 <= sched.currentThread < sched.numThreads
      requires |View().tasks[sched.currentThread].core.r| == 15
      requires Judged(View().tasks, sched.currentThread, View().memory, valid).Some?
      modifies sched.threads, emu.mem`view, emu.mem.mappings, emu.mem.blocks
      ensures Valid() && |old(View()).tasks[sched.currentThread].core.r| == 15
      ensures var m := old(View()); var a := Judged(m.tasks, sched.currentThread, m.memory, valid);
        && a.Some? && View() == m.(tasks := a.value.0, memory := a.value.1) && ret == a.value.2
    {
      hide Cpu.TableReady, Segments.Valid, BlockTransfer.ListTable, Resumable, CoreOf, Unplaced, sched.s.Capture,
        sched.View, sched.Spare, Proper, TaskOf, ProperTask, Arbitration, WithRests, Signed, Judged, Stripped;
      ghost var ts := sched.View();
      sched.ViewIsProper();
      JudgedMeans(ts, sched.currentThread, emu.mem.view, valid);
      ret := ArbitrateAddress(sched, emu.mem, valid);
      sched.ViewIsProper();
      RestsChange(ts, sched.View());
    }

    /** svcCreateThread */
    method Create(handle: u32)
      requires Valid() && 0 <= sched.currentThread < sched.numThreads
      requires |View().tasks[sched.currentThread].core.r| == 15
      requires Grown(View().tasks, sched.currentThread, View().spare, handle).Some?
      modifies sched`numThreads, sched.threads, sched.s.cpu.Reg
      ensures Valid() && |old(View()).tasks[sched.currentThread].core.r| == 15
      ensures var m := old(View()); var vs := Grown(m.tasks, sched.currentThread, m.spare, handle);
        vs.Some? && m.spare != [] && View() == m.(tasks := vs.value, spare := m.spare[1..])
    {
      hide Cpu.TableReady, Segments.Valid, BlockTransfer.ListTable, Resumable, CoreOf, Unplaced, sched.s.Capture,
        sched.View, sched.Spare, Proper, TaskOf, ProperTask, Answered, WithRegister, Created;
      ghost var us, t: nat := View().tasks, sched.currentThread;
      ArgumentsAre();
      ghost var ts, e := sched.View(), sched.Spare()[0];
      ghost var r := ts[t].ctx.r;
      RegisterChanges(ts, t, 1, handle);
      OneMoreTask(ts[t := WithRegister(ts[t], 1, handle)], Created(e, handle, r[0], r[1], r[2], r[3]));
      SystemCalls.CreateThread(sched, handle);
      Answer(0, 0);
      AnswersBeforeLast(Answered(us, t, 1, handle), TaskOf(Created(e, handle, r[0], r[1], r[2], r[3])), t, 0, 0);
    }

    /** What another system call does to the threads and the handles. */
    method PerformCall(effect: (nat, H, seq<Task>) -> (H, seq<Task>))
      requires Valid() && 0 <= sched.currentThread < sched.numThreads
      requires Act(View(), sched.currentThread, Call(effect)).Some?
      modifies sched`handles, sched.threads, sched.s, sched.s.cpu, sched.s.cpu.Reg, sched.s.ExtReg, sched.s.VFP
      ensures Valid() && Some(View()) == Act(old(View()), sched.currentThread, Call(effect))
    {
      hide Cpu.TableReady, Segments.Valid, BlockTransfer.ListTable, Proper, Resumable, sched.s.Capture, WellFormed,
        ProperTask, TaskOf, sched.View, sched.Spare;
      sched.ViewIsProper();
      Apply(sched, effect);
    }

    /** What a system call writes to memory. */
    method PerformStore(addr: u32, x: u8)
      requires Valid() && 0 <= sched.currentThread < sched.numThreads
      requires Act(View(), sched.currentThread, Store(addr, x)).Some?
      modifies emu.mem`view, emu.mem.mappings, emu.mem.blocks
      ensures Valid() && Some(View()) == Act(old(View()), sched.currentThread, Store(addr, x))
    {
      hide Cpu.TableReady, Segments.Valid, BlockTransfer.ListTable, Resumable, CoreOf, Unplaced, sched.s.Capture,
        WellFormed, AllProperTasks, Stored, AllResumable, sched.View, sched.Spare;
      var _ := emu.mem.Write8(addr, x);
    }

    /** One action of the current thread's slice. */
    method Perform(act: Action<H>)
      requires Valid() && 0 <= sched.currentThread < sched.numThreads
      requires Act(View(), sched.currentThread, act).Some?
      modifies sched`handles, sched`numThreads, sched.threads, sched.s, sched.s.cpu, sched.s.cpu.Reg, sched.s.ExtReg,
        sched.s.VFP, emu.mem`view, emu.mem.mappings, emu.mem.blocks
      ensures Valid() && Some(View()) == Act(old(View()), sched.currentThread, act)
    {
      hide Valid, View, Act;
      EmulatorIsCurrent();
      match act {
        case Instructions(n) => RunInstructions(n);
        case Serve(call) => ServeThread(call);
        case Call(effect) => PerformCall(effect);
        case Store(addr, x) => PerformStore(addr, x);
      }
    }

    lemma EmulatorIsCurrent()
      requires Valid()
      ensures emu.cpu == sched.s.cpu
    {
    }

    /** arm11_Run: the slice of the current thread. */
    method RunSlice(acts: seq<Action<H>>)
      requires Valid() && 0 <= sched.currentThread < sched.numThreads
      requires Acts(View(), sched.currentThread, acts).Some?
      modifies sched`handles, sched`numThreads, sched.threads, sched.s, sched.s.cpu, sched.s.cpu.Reg, sched.s.ExtReg,
        sched.s.VFP, emu.mem`view, emu.mem.mappings, emu.mem.blocks
      ensures Valid() && Some(View()) == Acts(old(View()), sched.currentThread, acts)
    {
      hide Valid, View, Act;
      ghost var m, t := View(), sched.currentThread;
      var i := 0;
      while i < |acts|
        invariant 0 <= i <= |acts| && Valid() && 0 <= t < sched.numThreads && Acts(m, t, acts[..i]) == Some(View())
      {
        ActsPrefix(m, t, acts, i);
        ActKeepsThreads(View(), t, acts[i]);
        Perform(acts[i]);
        i := i + 1;
      }
      assert acts[..i] == acts;
    }

    /** The turn of one thread. */
    method TakeTurn(w: World<H>, t: nat)
      requires Valid() && t < sched.numThreads && Turn(w, t, View()).Some?
      modifies sched, sched.threads, sched.s, sched.s.cpu, sched.s.cpu.Reg, sched.s.ExtReg, sched.s.VFP
      modifies emu.mem`view, emu.mem.mappings, emu.mem.blocks
      ensures Valid() && Some(View()) == Turn(w, t, old(View()))
    {
      hide Valid, View, Acts, MayRun, Consult, WakeTask, ProperTask;
      var active := Ask(w, t);
      if active {
        SwitchTo(t);
        RunSlice(w.script(t));
      }
    }

    /** Asks the handles of a thread, if it waits. */
    method Ask(w: World<H>, t: nat) returns (active: bool)
      requires Valid() && t < sched.numThreads
      modifies sched`handles, sched.threads, sched.s.cpu.Reg
      ensures Valid() && t < sched.numThreads && (active ==> sched.threads[t].state != STOPPED)
      ensures ProperTask(old(View()).tasks[t])
      ensures var m, u := old(View()), old(View()).tasks[t]; var (answers, h) := Consult(w.ask, m.handles, u.rest);
        active == MayRun(u.rest, answers) && View() == m.(handles := h, tasks := m.tasks[t := WakeTask(u, answers)])
    {
      hide Cpu.TableReady, Segments.Valid, BlockTransfer.ListTable, Resumable, CoreOf, Unplaced, sched.View,
        sched.Spare, MayRun, Consult, Wake, WakeTask, Proper;
      ghost var ts, h := sched.View(), sched.handles;
      active := sched.IsThreadActive(t, w.ask);
      ghost var answers := Consult(w.ask, h, ts[t]).0;
      WakeCommutes(ts[t], answers);
      SameConsultation(w.ask, h, ts[t], answers);
      TasksUpdate(ts, t, Wake(ts[t], answers));
      sched.ViewIsProper();
      if active { StoppedMayNotRun(ts[t], answers); }
    }

    /** Puts a thread on the CPU, and sorts the mappings; neither is seen. */
    method SwitchTo(t: nat)
      requires Valid() && t < sched.numThreads && sched.threads[t].state != STOPPED
      modifies sched`currentThread, sched.threads, sched.s, sched.s.cpu, sched.s.cpu.Reg, sched.s.ExtReg, sched.s.VFP
      modifies emu.mem.mappings
      ensures Valid() && sched.currentThread == t < sched.numThreads && View() == old(View())
    {
      hide Cpu.TableReady, Segments.Valid, BlockTransfer.ListTable, Resumable, CoreOf, Unplaced, sched.View,
        sched.Spare, Proper, TaskOf;
      sched.Switch(t);
      var _ := emu.mem.Reorder();
    }

    /** threads_Execute: for the threads the round is the same as if each had a processor of its own. */
    method Execute(w: World<H>)
      requires Valid() && Round(w, View()).Some?
      modifies sched, sched.threads, sched.s, sched.s.cpu, sched.s.cpu.Reg, sched.s.ExtReg, sched.s.VFP
      modifies emu.mem`view, emu.mem.mappings, emu.mem.blocks
      ensures Valid() && Some(View()) == Round(w, old(View()))
    {
      hide Valid, View, Turn, Living;
      ghost var m := View();
      var t := 0;
      while t < sched.numThreads
        invariant 0 <= t && Valid() && Turns(w, t, View()) == Turns(w, 0, m)
        decreases MAX_THREADS - t
      {
        AtMostMax();
        TakeTurn(w, t);
        t := t + 1;
      }
      EndRound();
    }

    lemma AtMostMax()
      requires Valid()
      ensures sched.numThreads <= MAX_THREADS
    {
    }

    method EndRound()
      requires Valid()
      modifies sched`currentThread, sched`numThreads, sched.threads
      ensures Valid() && View() == Removed(old(View()))
    {
      hide Cpu.TableReady, Segments.Valid, BlockTransfer.ListTable, Resumable, CoreOf, Unplaced, sched.View,
        sched.Spare, Proper, TaskOf, ProperTask;
      LivingIsAlive(sched.View());
      sched.EndRound();
    }

    /** Any number of rounds: threads that share the emulator run as processors that share the memory. */
    method Run(ws: seq<World<H>>)
      requires Valid() && Rounds(ws, View()).Some?
      modifies sched, sched.threads, sched.s, sched.s.cpu, sched.s.cpu.Reg, sched.s.ExtReg, sched.s.VFP
      modifies emu.mem`view, emu.mem.mappings, emu.mem.blocks
      ensures Valid() && Some(View()) == Rounds(ws, old(View()))
    {
      hide Valid, View, Round;
      ghost var m := View();
      var i := 0;
      while i < |ws|
        invariant 0 <= i <= |ws| && Valid() && Rounds(ws[..i], m) == Some(View())
      {
        RoundsPrefix(ws, m, i);
        Execute(ws[i]);
        i := i + 1;
      }
      assert ws[..i] == ws;
    }
  }

  /** The rounds of a program from its first state on. */
  function ProgramRounds<H>(
    ws: seq<World<H>>, handles: H, handle: u32, pc: u32, sp: u32, f: Flat, behind: Thread): Option<Multi<H>>
  {
    Rounds(ws, FirstState(handles, handle, pc, sp, f, behind))
  }

  /** A whole program, from the initialization on: its first thread, and those that it creates, run as processors of
      their own that share the memory. */
  method RunProgram<H>(mem: Segments, handles: H, behind: Thread, handle: u32, pc: u32, sp: u32, ws: seq<World<H>>)
    returns (sys: System<H>)
    requires pc % 4 == 0 && Proper(behind) && mem.Valid() && mem.numMappings > 0
    requires ProgramRounds(ws, handles, handle, pc, sp, mem.view, behind).Some?
    modifies mem`view, mem.mappings, mem.blocks
    ensures sys.StandsFor(ProgramRounds(ws, handles, handle, pc, sp, old(mem.view), behind))
  {
    hide System.Valid, System.View, Rounds, FirstState, Segments.Valid;
    sys := Start(mem, handles, behind, handle, pc, sp);
    sys.Run(ws);
  }
}
