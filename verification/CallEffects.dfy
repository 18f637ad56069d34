/** What each system call that acts on threads does, from the bytes of the SWI to the registers, the threads and the
    memory (src/svc.c, src/syscalls/arb.c, src/arm11/threads.c). */
module CallEffects {
  import opened Words
  import opened Architecture
  import opened Memory
  import opened Machine
  import opened Threads
  import opened SystemCalls
  import opened Processors
  import opened Traps
  import opened Multitasking
  import BlockTransfer

  // ---- The instruction ---------------------------------------------------

  /** Is the instruction at the PC an unconditional SWI with this number (0xDF00 or 0xEF000000 and above)? */
  ghost predicate SwiAt(a: Core, f: Flat, n: u8) {
    && WellFormed(a) && a.pc + 4 < TWO32
    && if a.thumb then Holds(f, a.pc, 2) && Slice(f, a.pc, 2) == [n, 0xDF]
       else Holds(f, a.pc, 4) && Slice(f, a.pc, 4) == [n, 0, 0, 0xEF]
  }

  /** The numbers of the calls. */
  function NumberOf(call: Service): set<u8> {
    match call
    case CreateThread(_) => {8}
    case ExitThread => {9}
    case GetPriority => {0xB}
    case SetPriority => {0xC}
    case Arbitrate(_) => {0x22}
    case CloseThread => {0x23}
    case WaitFor(_, _, _) => {0x24, 0x25, 0x32}
  }

  lemma SwiTraps(a: Core, f: Flat, n: u8, call: Service)
    requires SwiAt(a, f, n) && n in NumberOf(call)
    ensures Trapped(a, f, call)
  {
    hide Holds, Little, LittleWord, AsksFor, IsThumbSwi, IsSwi, DecodeSwi, SwiNumber;
    SwiFetched(a, f, n);
    NumberAsks(n, call);
  }

  lemma SwiFetched(a: Core, f: Flat, n: u8)
    requires SwiAt(a, f, n)
    ensures Fetch(CodeIn(f), a) == if a.thumb then AsHalf(0xDF00 + n) as bv32 else AsWord(0xEF00_0000 + n)
  {
    hide Holds, Little, LittleWord, AsHalf, AsWord;
    if a.thumb {
      TwoLittle([n, 0xDF]);
    } else {
      var s := [n, 0, 0, 0xEF];
      assert RotateUp(s, 0) == s;
      FourLittle(s);
    }
  }

  lemma NumberAsks(n: u8, call: Service)
    requires n in NumberOf(call)
    ensures var t, w := AsHalf(0xDF00 + n) as bv32, AsWord(0xEF00_0000 + n);
      && IsThumbSwi(t) && IsSwi(w) && w >> 28 == 14
      && AsksFor(SwiNumber(DecodeSwi(t)), call) && AsksFor(SwiNumber(w), call)
  {
    hide AsHalf, AsWord;
    Words8();
    Words22();
  }

  lemma Words8()
    ensures AsHalf(0xDF08) == 0xDF08 && AsWord(0xEF00_0008) == 0xEF00_0008
    ensures AsHalf(0xDF09) == 0xDF09 && AsWord(0xEF00_0009) == 0xEF00_0009
    ensures AsHalf(0xDF0B) == 0xDF0B && AsWord(0xEF00_000B) == 0xEF00_000B
    ensures AsHalf(0xDF0C) == 0xDF0C && AsWord(0xEF00_000C) == 0xEF00_000C
  {
  }

  lemma Words22()
    ensures AsHalf(0xDF22) == 0xDF22 && AsWord(0xEF00_0022) == 0xEF00_0022
    ensures AsHalf(0xDF23) == 0xDF23 && AsWord(0xEF00_0023) == 0xEF00_0023
    ensures AsHalf(0xDF24) == 0xDF24 && AsWord(0xEF00_0024) == 0xEF00_0024
    ensures AsHalf(0xDF25) == 0xDF25 && AsWord(0xEF00_0025) == 0xEF00_0025
    ensures AsHalf(0xDF32) == 0xDF32 && AsWord(0xEF00_0032) == 0xEF00_0032
  {
  }

  // ---- Threads by their handles ------------------------------------------

  /** Does thread t make the call with this number? */
  ghost predicate Calls<H(!new)>(m: Multi<H>, t: nat, n: u8) {
    t < |m.tasks| && AllProperTasks(m.tasks) && SwiAt(m.tasks[t].core, m.memory, n)
  }

  /** A processor that is back from a call with x in r0. */
  function Back(a: Core, x: u32): Core
    requires |a.r| == 15
  {
    a.(pc := Wrap(a.pc + if a.thumb then 2 else 4), r := a.r[0 := x])
  }

  /** The tasks when t is back. */
  function Resume(us: seq<Task>, t: nat, x: u32): (vs: seq<Task>)
    requires t < |us| && |us[t].core.r| == 15
    ensures |vs| == |us|
  {
    us[t := us[t].(core := Back(us[t].core, x))]
  }

  /** Does the handle stand for thread id when thread t uses it? */
  ghost predicate Named(us: seq<Task>, t: nat, handle: u32, id: nat) {
    id < |us| && if handle == 0xFFFF_8000 then id == t
                 else us[id].rest.handle == handle && forall k :: 0 <= k < id ==> us[k].rest.handle != handle
  }

  ghost predicate Unnamed(us: seq<Task>, handle: u32) {
    handle != 0xFFFF_8000 && forall k :: 0 <= k < |us| ==> us[k].rest.handle != handle
  }

  lemma FindsNamed(us: seq<Task>, t: nat, handle: u32, id: nat)
    requires t < |us|
    ensures Named(us, t, handle, id) ==> FindId(Rests(us), t, handle) == id
    ensures Unnamed(us, handle) ==> FindId(Rests(us), t, handle) == -1
  {
    hide FirstWith;
    var found := FirstWith(Rests(us), handle);
    assert forall k :: 0 <= k < |us| ==> Rests(us)[k].handle == us[k].rest.handle;
  }

  lemma CallIsServed<H(!new)>(m: Multi<H>, t: nat, n: u8, call: Service)
    requires Calls(m, t, n) && n in NumberOf(call)
    ensures |Passed(m.tasks, t)[t].core.r| == 15
    ensures Act(m, t, Serve(call)) ==
      match Served(Passed(m.tasks, t), t, m.memory, m.spare, call)
      case None => None
      case Some(s) => Some(m.(tasks := s.0, memory := s.1, spare := s.2))
  {
    hide Served, Trapped, NumberOf, Holds;
    SwiTraps(m.tasks[t].core, m.memory, n, call);
  }

  /** The tasks when t is back and task id is changed. */
  function Changed(us: seq<Task>, t: nat, x: u32, id: nat, rest: Thread): (vs: seq<Task>)
    requires t < |us| && |us[t].core.r| == 15 && id < |us|
    ensures |vs| == |us|
  {
    var vs := Resume(us, t, x);
    vs[id := vs[id].(rest := rest)]
  }

  lemma BackAgain(us: seq<Task>, t: nat, x: u32)
    requires t < |us| && |us[t].core.r| == 15
    ensures Answered(Passed(us, t), t, 0, x) == Resume(us, t, x)
    ensures Rests(Passed(us, t)) == Rests(us) && Passed(us, t)[t].core.r == us[t].core.r
  {
  }

  lemma BackWithChange(us: seq<Task>, t: nat, x: u32, id: nat, rest: Thread)
    requires t < |us| && |us[t].core.r| == 15 && id < |us|
    ensures var ps := Passed(us, t); var rs := Rests(us)[id := rest];
      && WithRests(Answered(ps, t, 0, x), rs) == Changed(us, t, x, id, rest)
      && Answered(WithRests(ps, rs), t, 0, x) == Changed(us, t, x, id, rest)
      && Answered(WithRests(ps, Rests(us)), t, 0, x) == Resume(us, t, x)
  {
    hide Wrap;
    var ps := Passed(us, t); var rs := Rests(us)[id := rest];
    assert WithRests(Answered(ps, t, 0, x), rs) == Changed(us, t, x, id, rest);
    assert Answered(WithRests(ps, rs), t, 0, x) == Changed(us, t, x, id, rest);
    assert Answered(WithRests(ps, Rests(us)), t, 0, x) == Resume(us, t, x);
  }

  /** SWI 9: the caller stops. */
  lemma ExitStops<H(!new)>(m: Multi<H>, t: nat)
    requires Calls(m, t, 9)
    ensures Act(m, t, Serve(ExitThread)) ==
      Some(m.(tasks := Changed(m.tasks, t, 0, t, m.tasks[t].rest.(state := STOPPED))))
  {
    hide Act, SwiAt, Proper, Answered, Passed, Changed, WithRests;
    CallIsServed(m, t, 9, ExitThread);
    BackAgain(m.tasks, t, 0);
    RestsKept(Passed(m.tasks, t), t, 0, 0);
    BackWithChange(m.tasks, t, 0, t, m.tasks[t].rest.(state := STOPPED));
  }

  /** SWI 0x23: the thread whose handle is in r0 stops, or r0 tells that there is none. */
  lemma CloseStops<H(!new)>(m: Multi<H>, t: nat, id: nat)
    requires Calls(m, t, 0x23)
    ensures var handle := m.tasks[t].core.r[0];
      && (Named(m.tasks, t, handle, id) ==>
            Act(m, t, Serve(CloseThread)) ==
              Some(m.(tasks := Changed(m.tasks, t, 0, id, m.tasks[id].rest.(state := STOPPED)))))
      && (Unnamed(m.tasks, handle) ==>
            Act(m, t, Serve(CloseThread)) == Some(m.(tasks := Resume(m.tasks, t, 0xFFFF_FFFF))))
  {
    hide Act, SwiAt, Proper, Answered, Passed, Changed, WithRests, Resume, FindId;
    CallIsServed(m, t, 0x23, CloseThread);
    FindsNamed(m.tasks, t, m.tasks[t].core.r[0], id);
    BackAgain(m.tasks, t, 0);
    BackWithChange(m.tasks, t, 0xFFFF_FFFF, t, m.tasks[t].rest);
    if Named(m.tasks, t, m.tasks[t].core.r[0], id) {
      BackWithChange(m.tasks, t, 0, id, m.tasks[id].rest.(state := STOPPED));
    }
  }

  /** SWI 0xC: the thread whose handle is in r0 gets the signed priority in r1. */
  lemma SetsPriority<H(!new)>(m: Multi<H>, t: nat, id: nat)
    requires Calls(m, t, 0xC)
    ensures var handle, priority := m.tasks[t].core.r[0], Signed(m.tasks[t].core.r[1]);
      && (Named(m.tasks, t, handle, id) ==>
            Act(m, t, Serve(Service.SetPriority)) ==
              Some(m.(tasks := Changed(m.tasks, t, 0, id, m.tasks[id].rest.(priority := priority)))))
      && (Unnamed(m.tasks, handle) ==>
            Act(m, t, Serve(Service.SetPriority)) == Some(m.(tasks := Resume(m.tasks, t, 0))))
  {
    hide Act, SwiAt, Proper, Answered, Passed, Changed, WithRests, Resume, FindId, Signed;
    CallIsServed(m, t, 0xC, Service.SetPriority);
    FindsNamed(m.tasks, t, m.tasks[t].core.r[0], id);
    BackAgain(m.tasks, t, 0);
    BackWithChange(m.tasks, t, 0, t, m.tasks[t].rest);
    if Named(m.tasks, t, m.tasks[t].core.r[0], id) {
      BackWithChange(m.tasks, t, 0, id, m.tasks[id].rest.(priority := Signed(m.tasks[t].core.r[1])));
    }
  }

  /** The tasks when t is back with zero in r0 and x in r1. */
  function Told(us: seq<Task>, t: nat, x: u32): (vs: seq<Task>)
    requires t < |us| && |us[t].core.r| == 15
    ensures |vs| == |us|
  {
    var vs := Resume(us, t, 0);
    vs[t := vs[t].(core := vs[t].core.(r := vs[t].core.r[1 := x]))]
  }

  /** SWI 0xB: the priority of the thread whose handle is in r1 goes to r1, or zero. */
  lemma GetsPriority<H(!new)>(m: Multi<H>, t: nat, id: nat)
    requires Calls(m, t, 0xB)
    ensures var handle := m.tasks[t].core.r[1];
      && (Named(m.tasks, t, handle, id) ==>
            Act(m, t, Serve(Service.GetPriority)) ==
              Some(m.(tasks := Told(m.tasks, t, Wrap(m.tasks[id].rest.priority)))))
      && (Unnamed(m.tasks, handle) ==> Act(m, t, Serve(Service.GetPriority)) == Some(m.(tasks := Told(m.tasks, t, 0))))
  {
    hide Act, SwiAt, Proper, Resume, FindId, Wrap, Told, Answered, Passed;
    CallIsServed(m, t, 0xB, Service.GetPriority);
    FindsNamed(m.tasks, t, m.tasks[t].core.r[1], id);
    BackAgain(m.tasks, t, 0);
    var ps := Passed(m.tasks, t);
    AnswersTwice(m.tasks, t, PriorityOf(Rests(ps), t, ps[t].core.r[1]));
  }

  lemma AnswersTwice(us: seq<Task>, t: nat, x: u32)
    requires t < |us| && |us[t].core.r| == 15
    ensures Answered(Answered(Passed(us, t), t, 1, x), t, 0, 0) == Told(us, t, x)
  {
    hide Wrap;
    var r: seq<u32> := us[t].core.r;
    assert r[1 := x][0 := 0] == r[0 := 0][1 := x];
  }

  /** SWI 0x24, 0x25 and 0x32: the caller waits for handles. */
  lemma WaitSuspends<H(!new)>(m: Multi<H>, t: nat, n: u8, list: seq<u32>, all: bool, ret: u32)
    requires Calls(m, t, n) && n in {0x24, 0x25, 0x32} && |list| < TWO32
    ensures Act(m, t, Serve(WaitFor(list, all, ret))) == Some(m.(tasks :=
      Changed(m.tasks, t, ret, t, m.tasks[t].rest.(state := WAITING_SYNC, waitList := list, waitAll := all))))
  {
    hide Act, SwiAt, Proper, Answered, Passed, Changed, WithRests;
    CallIsServed(m, t, n, WaitFor(list, all, ret));
    BackAgain(m.tasks, t, 0);
    BackWithChange(m.tasks, t, ret, t, WaitingFor(m.tasks[t].rest, list, all));
  }

  // ---- Arbitration -------------------------------------------------------

  /** Does thread t call for an arbitration (SWI 0x22) with these arguments in r0 to r3? */
  ghost predicate CallsArbiter<H(!new)>(m: Multi<H>, t: nat, arbiter: u32, addr: u32, kind: u32, value: int) {
    Calls(m, t, 0x22) &&
    var r := m.tasks[t].core.r; r[0] == arbiter && r[1] == addr && r[2] == kind && Signed(r[3]) == value
  }

  /** The tasks when t waits for an address of an arbiter; it will find zero in r0. */
  function Waits(us: seq<Task>, t: nat, arbiter: u32, addr: u32): (vs: seq<Task>)
    requires t < |us| && |us[t].core.r| == 15
    ensures |vs| == |us|
  {
    Changed(us, t, 0, t, us[t].rest.(state := WAITING_ARB, arbHandle := arbiter, arbAddr := addr))
  }

  lemma ArbitrationServed<H(!new)>(
    m: Multi<H>, t: nat, arbiter: u32, addr: u32, kind: u32, value: int, valid: bool)
    requires CallsArbiter(m, t, arbiter, addr, kind, value)
    ensures var us := m.tasks; var ps := Passed(us, t);
      && |ps[t].core.r| == 15
      && match Arbitration(Rests(us), t, m.memory, valid, arbiter, addr, kind, value) {
           case None => Act(m, t, Serve(Arbitrate(valid))) == None
           case Some(a) =>
             var qs := WithRests(ps, a.0);
             Act(m, t, Serve(Arbitrate(valid))) == Some(m.(tasks := Answered(qs, t, 0, a.2), memory := a.1))
         }
  {
    hide Act, SwiAt, Proper, Answered, Passed, WithRests, Arbitration, Signed;
    CallIsServed(m, t, 0x22, Service.Arbitrate(valid));
    BackAgain(m.tasks, t, 0);
  }

  /** Unaligned addresses, handles that are no arbiter's and unknown kinds only give a result code. */
  lemma ArbitrationFails<H(!new)>(
    m: Multi<H>, t: nat, arbiter: u32, addr: u32, kind: u32, value: int, valid: bool)
    requires CallsArbiter(m, t, arbiter, addr, kind, value) && (addr % 4 != 0 || !valid || kind > 4)
    ensures Act(m, t, Serve(Arbitrate(valid))) == Some(m.(tasks := Resume(m.tasks, t,
      if addr % 4 != 0 then 0xD8E0_07F1 else if !valid then 0xD8E0_07F7 else 0xD8E0_93ED)))
  {
    hide Act, SwiAt, Proper, Answered, Passed, WithRests, Resume;
    ArbitrationServed(m, t, arbiter, addr, kind, value, valid);
    var x := if addr % 4 != 0 then 0xD8E0_07F1 else if !valid then 0xD8E0_07F7 else 0xD8E0_93ED;
    BackWithChange(m.tasks, t, x, t, m.tasks[t].rest);
  }

  /** Kind 0 with a negative value releases every thread that waits there, if its priority is 0x80 or above. */
  lemma ReleasesEveryone<H(!new)>(m: Multi<H>, t: nat, arbiter: u32, addr: u32, value: int)
    requires CallsArbiter(m, t, arbiter, addr, 0, value) && addr % 4 == 0 && value < 0
    ensures var a := Act(m, t, Serve(Arbitrate(true))); var us := Resume(m.tasks, t, 0);
      && a.Some? && a == Some(m.(tasks := a.value.tasks)) && |a.value.tasks| == |us|
      && forall i :: 0 <= i < |us| ==>
           var u := us[i].rest;
           a.value.tasks[i] ==
             if u.state == WAITING_ARB && u.arbHandle == arbiter && u.arbAddr == addr && u.priority <= 0x80
             then us[i].(rest := u.(state := RUNNING, arbHandle := 0, arbAddr := 0)) else us[i]
  {
    hide Act, SwiAt, Proper, Wrap;
    ArbitrationServed(m, t, arbiter, addr, 0, value, true);
  }

  /** With a value that is not negative it releases so many, the foremost ones. */
  lemma ReleasesSome<H(!new)>(m: Multi<H>, t: nat, arbiter: u32, addr: u32, value: int)
    requires CallsArbiter(m, t, arbiter, addr, 0, value) && addr % 4 == 0 && value >= 0
    ensures var us := Resume(m.tasks, t, 0);
      Act(m, t, Serve(Arbitrate(true))) ==
        Some(m.(tasks := WithRests(us, Released(Rests(m.tasks), arbiter, addr, value))))
  {
    hide Act, SwiAt, Proper, Wrap, Released;
    ArbitrationServed(m, t, arbiter, addr, 0, value, true);
    var rs := Released(Rests(m.tasks), arbiter, addr, value);
    assert Answered(WithRests(Passed(m.tasks, t), rs), t, 0, 0) == WithRests(Resume(m.tasks, t, 0), rs);
  }

  /** The released come before those that still wait: by their priority, a small number being a high one, or among
      equals by their place in the table, the last one first. */
  lemma ReleasesInOrder(ts: seq<Thread>, arbiter: u32, addr: u32, n: nat, i: nat, k: nat)
    requires i < |ts| && k < |ts|
    ensures var us := Released(ts, arbiter, addr, n);
      us[i] != ts[i] && WaitsAt(us[k], arbiter, addr) && us[k].priority <= 0x80 ==>
        ts[i].priority < ts[k].priority || (ts[i].priority == ts[k].priority && k < i)
  {
    hide Released, WaitsAt;
    ReleasesForemost(ts, arbiter, addr, n);
  }

  /** Kinds 1 and 3 compare the value with the signed word at the address, and write nothing: the caller goes on if it
      is below, and waits otherwise. */
  lemma Acquires<H(!new)>(m: Multi<H>, t: nat, arbiter: u32, addr: u32, kind: u32, value: int)
    requires CallsArbiter(m, t, arbiter, addr, kind, value) && kind in {1, 3} && addr % 4 == 0 && addr + 4 < TWO32
    ensures Act(m, t, Serve(Arbitrate(true))) == Some(m.(tasks :=
      if value < Signed(LoadedWord(m.memory, addr)) then Resume(m.tasks, t, 0) else Waits(m.tasks, t, arbiter, addr)))
  {
    hide Act, SwiAt, Proper, Answered, Passed, WithRests, Resume, Changed, LoadedWord, Signed;
    ArbitrationServed(m, t, arbiter, addr, kind, value, true);
    SuspendsOrNot(m.tasks, t, arbiter, addr);
  }

  lemma SuspendsOrNot(us: seq<Task>, t: nat, arbiter: u32, addr: u32)
    requires t < |us| && |us[t].core.r| == 15
    ensures Answered(WithRests(Passed(us, t), Rests(us)), t, 0, 0) == Resume(us, t, 0)
    ensures Answered(WithRests(Passed(us, t), Suspended(Rests(us), t, arbiter, addr)), t, 0, 0)
      == Waits(us, t, arbiter, addr)
  {
    hide Answered, Passed, WithRests, Resume, Changed;
    BackWithChange(us, t, 0, t, us[t].rest.(state := WAITING_ARB, arbHandle := arbiter, arbAddr := addr));
  }

  /** Does the second memory have this word at the address, if the first has one there, and else the same bytes? */
  ghost predicate Rewritten(f: Flat, g: Flat, addr: u32, x: u32) {
    && BlockTransfer.SameOutside(f, g, addr, addr + 4)
    && if Holds(f, addr, 4) then Holds(g, addr, 4) && LoadedWord(g, addr) == x else g == f
  }

  lemma StoresWord(f: Flat, addr: u32, x: u32)
    requires addr % 4 == 0
    ensures Rewritten(f, Stored(f, addr, Bytes(x, 4)), addr, x)
  {
    hide Bytes, Holds, Mapped, Little, LittleWord;
    var g := Stored(f, addr, Bytes(x, 4));
    BlockTransfer.StoredFrame(f, addr, Bytes(x, 4));
    BlockTransfer.SameHolds(f, g, addr, addr + 4, addr, 4);
    if Holds(f, addr, 4) {
      SliceOfBlit(f, addr, Bytes(x, 4));
      LittleWordOfBytes(x);
      assert RotateUp(Slice(g, addr, 4), 0) == Bytes(x, 4);
    }
  }

  /** Kinds 2 and 4 first lower the word by one, modulo 2^32. */
  lemma Decrements<H(!new)>(m: Multi<H>, t: nat, arbiter: u32, addr: u32, kind: u32, value: int)
    requires CallsArbiter(m, t, arbiter, addr, kind, value) && kind in {2, 4} && addr % 4 == 0 && addr + 4 < TWO32
    ensures var x := LoadedWord(m.memory, addr); var y := if x == 0 then TWO32 - 1 else x - 1;
      var n := Act(m, t, Serve(Arbitrate(true)));
      && n.Some? && Rewritten(m.memory, n.value.memory, addr, y)
      && n.value == m.(memory := n.value.memory, tasks :=
           if value < Signed(y) then Resume(m.tasks, t, 0) else Waits(m.tasks, t, arbiter, addr))
  {
    hide Act, SwiAt, Proper, Answered, Passed, WithRests, Resume, Changed, LoadedWord, Signed, Stored, Bytes, Rewritten,
      Waits, Suspended;
    ArbitrationServed(m, t, arbiter, addr, kind, value, true);
    SuspendsOrNot(m.tasks, t, arbiter, addr);
    StoresWord(m.memory, addr, Wrap(LoadedWord(m.memory, addr) - 1));
  }

  // ---- A lock ------------------------------------------------------------

  /** Does thread t lock with kind 2 and value 0, with code that does not overlap the word? */
  ghost predicate Locks<H(!new)>(m: Multi<H>, t: nat, arbiter: u32, addr: u32) {
    && CallsArbiter(m, t, arbiter, addr, 2, 0)
    && (m.tasks[t].core.pc + 4 <= addr || addr + 4 <= m.tasks[t].core.pc)
  }

  /** May these threads lock, one after the other? */
  ghost predicate AllLock<H(!new)>(m: Multi<H>, ts: seq<nat>, arbiter: u32, addr: u32) {
    && addr % 4 == 0 && addr + 4 < TWO32 && Holds(m.memory, addr, 4)
    && (forall i :: 0 <= i < |ts| ==> Locks(m, ts[i], arbiter, addr))
    && forall i, j :: 0 <= i < j < |ts| ==> ts[i] != ts[j]
  }

  /** The tasks after one of them has called: it goes on, or waits. */
  function Called(us: seq<Task>, t: nat, arbiter: u32, addr: u32, on: bool): (vs: seq<Task>)
    requires t < |us| && |us[t].core.r| == 15
    ensures |vs| == |us| && forall i :: 0 <= i < |us| && i != t ==> vs[i] == us[i]
    ensures vs[t].core == Back(us[t].core, 0)
    ensures vs[t].rest == if on then us[t].rest
                          else us[t].rest.(state := WAITING_ARB, arbHandle := arbiter, arbAddr := addr)
  {
    if on then Resume(us, t, 0) else Waits(us, t, arbiter, addr)
  }

  lemma OneLocks<H(!new)>(m: Multi<H>, t: nat, arbiter: u32, addr: u32, w: u32)
    requires Locks(m, t, arbiter, addr) && addr % 4 == 0 && addr + 4 < TWO32 && Holds(m.memory, addr, 4)
    requires 0 < w < TWO31 && LoadedWord(m.memory, addr) == w
    ensures var n := Act(m, t, Serve(Arbitrate(true)));
      && n.Some? && Rewritten(m.memory, n.value.memory, addr, w - 1)
      && n.value == m.(memory := n.value.memory, tasks := Called(m.tasks, t, arbiter, addr, w > 1))
  {
    hide Act, SwiAt, Proper, Unplaced, LoadedWord, Rewritten, Called, Resume, Waits;
    Decrements(m, t, arbiter, addr, 2, 0);
    CalledIs(m.tasks, t, arbiter, addr);
  }

  lemma CalledIs(us: seq<Task>, t: nat, arbiter: u32, addr: u32)
    requires t < |us| && |us[t].core.r| == 15
    ensures Called(us, t, arbiter, addr, true) == Resume(us, t, 0)
    ensures Called(us, t, arbiter, addr, false) == Waits(us, t, arbiter, addr)
  {
  }

  lemma CalledIsProper(us: seq<Task>, t: nat, arbiter: u32, addr: u32, on: bool)
    requires t < |us| && AllProperTasks(us)
    ensures AllProperTasks(Called(us, t, arbiter, addr, on))
  {
    hide Called, Unplaced;
    var vs := Called(us, t, arbiter, addr, on);
    assert ProperTask(vs[t]);
  }

  /** The other threads can still lock. */
  lemma OthersLock<H(!new)>(m: Multi<H>, n: Multi<H>, t: nat, i: nat, arbiter: u32, addr: u32, w: u32, on: bool)
    requires t < |m.tasks| && AllProperTasks(m.tasks) && n.tasks == Called(m.tasks, t, arbiter, addr, on)
    requires i != t && Locks(m, i, arbiter, addr) && Rewritten(m.memory, n.memory, addr, w)
    ensures Locks(n, i, arbiter, addr)
  {
    hide Called, Holds, Mapped, AllProperTasks, WellFormed, LoadedWord, BlockTransfer.SameOutside;
    CalledIsProper(m.tasks, t, arbiter, addr, on);
    var a := m.tasks[i].core;
    CodeStays(m.memory, n.memory, addr, a.pc, if a.thumb then 2 else 4);
  }

  lemma CodeStays(f: Flat, g: Flat, addr: u32, pc: u32, n: nat)
    requires BlockTransfer.SameOutside(f, g, addr, addr + 4) && Holds(f, pc, n) && n <= 4
    requires pc + 4 <= addr || addr + 4 <= pc
    ensures Holds(g, pc, n) && Slice(g, pc, n) == Slice(f, pc, n)
  {
    BlockTransfer.SameHolds(f, g, addr, addr + 4, pc, n);
  }

  /** Have these threads called, one after the other? */
  ghost predicate OneByOne<H(!new)>(ts: seq<nat>, ms: seq<Multi<H>>) {
    |ms| == |ts| + 1 && forall i :: 0 <= i < |ts| ==> Act(ms[i], ts[i], Serve(Arbitrate(true))) == Some(ms[i + 1])
  }

  /** Is each of the callers back, the first w - 1 of them going on and the next one waiting, and nobody else moved? */
  ghost predicate Locked(us: seq<Task>, vs: seq<Task>, ts: seq<nat>, arbiter: u32, addr: u32, w: nat) {
    && |vs| == |us| && (forall k :: 0 <= k < |us| && k !in ts ==> vs[k] == us[k])
    && forall i :: 0 <= i < |ts| ==> ts[i] < |us| && CallerOf(us[ts[i]], vs[ts[i]], arbiter, addr, i + 1 < w)
  }

  ghost predicate CallerOf(u: Task, v: Task, arbiter: u32, addr: u32, on: bool) {
    && |u.core.r| == 15 && v.core == Back(u.core, 0)
    && v.rest == if on then u.rest else u.rest.(state := WAITING_ARB, arbHandle := arbiter, arbAddr := addr)
  }

  /** A lock: with w in the word, the first w - 1 threads that lock go on, the next one waits, and each of them lowers
      the word by one. */
  lemma {:induction false} Lock<H(!new)>(m: Multi<H>, ts: seq<nat>, arbiter: u32, addr: u32, w: u32)
    returns (ms: seq<Multi<H>>)
    requires AllLock(m, ts, arbiter, addr) && |ts| <= w < TWO31 && LoadedWord(m.memory, addr) == w
    ensures OneByOne(ts, ms) && ms[0] == m
    ensures var n := ms[|ts|];
      && n == m.(tasks := n.tasks, memory := n.memory) && Locked(m.tasks, n.tasks, ts, arbiter, addr, w)
      && BlockTransfer.SameOutside(m.memory, n.memory, addr, addr + 4) && LoadedWord(n.memory, addr) == w - |ts|
    decreases |ts|
  {
    hide Act, LoadedWord, Called, Locks, CallerOf, Holds;
    if ts == [] { return [m]; }
    var t := ts[0];
    var n := FirstLocks(m, ts, arbiter, addr, w);
    ms := Lock(n, ts[1..], arbiter, addr, w - 1);
    FirstAndRest(m.tasks, n.tasks, ms[|ts| - 1].tasks, ts, arbiter, addr, w);
    ms := [m] + ms;
  }

  lemma FirstLocks<H(!new)>(m: Multi<H>, ts: seq<nat>, arbiter: u32, addr: u32, w: u32) returns (n: Multi<H>)
    requires AllLock(m, ts, arbiter, addr) && 0 < |ts| <= w < TWO31 && LoadedWord(m.memory, addr) == w
    ensures Act(m, ts[0], Serve(Arbitrate(true))) == Some(n) && AllLock(n, ts[1..], arbiter, addr)
    ensures LoadedWord(n.memory, addr) == w - 1 && BlockTransfer.SameOutside(m.memory, n.memory, addr, addr + 4)
    ensures n == m.(tasks := n.tasks, memory := n.memory) && Locked(m.tasks, n.tasks, ts[..1], arbiter, addr, w)
  {
    hide Act, LoadedWord, Called, SwiAt, Holds, BlockTransfer.SameOutside, Proper, Unplaced;
    OneLocks(m, ts[0], arbiter, addr, w);
    n := Act(m, ts[0], Serve(Arbitrate(true))).value;
    forall i | 0 <= i < |ts[1..]|
      ensures Locks(n, ts[1..][i], arbiter, addr)
    {
      OthersLock(m, n, ts[0], ts[i + 1], arbiter, addr, w - 1, w > 1);
    }
  }

  lemma FirstAndRest(
    us: seq<Task>, vs: seq<Task>, xs: seq<Task>, ts: seq<nat>, arbiter: u32, addr: u32, w: nat)
    requires ts != [] && w > 0 && forall i, j :: 0 <= i < j < |ts| ==> ts[i] != ts[j]
    requires Locked(us, vs, ts[..1], arbiter, addr, w) && Locked(vs, xs, ts[1..], arbiter, addr, w - 1)
    ensures Locked(us, xs, ts, arbiter, addr, w)
  {
    hide CallerOf;
    assert ts == ts[..1] + ts[1..];
    assert ts[0] !in ts[1..];
    forall i | 0 < i < |ts|
      ensures CallerOf(us[ts[i]], xs[ts[i]], arbiter, addr, i + 1 < w)
    {
      assert CallerOf(vs[ts[1..][i - 1]], xs[ts[1..][i - 1]], arbiter, addr, i < w - 1);
    }
    assert CallerOf(us[ts[..1][0]], vs[ts[..1][0]], arbiter, addr, 1 < w);
  }

  // ---- New threads -------------------------------------------------------

  /** A new thread: it starts at the entry, in Thumb state if that is odd, with its argument in r0; what nothing is said
      about is as the unused entry has it. */
  function NewTask(e: Thread, handle: u32, priority: u32, entry: u32, arg: u32, sp: u32): Task
    requires Sized(e.ctx)
  {
    var k := e.ctx;
    Task(Core([arg] + k.r[1..] + [sp, k.lr], entry - entry % 2, Flags(k.n, k.z, k.c, k.v), entry % 2 == 1,
              Others(k.q, k.ge, k.e, k.a, k.i), if entry % 2 == 1 then 0x3F else 0x1F),
         e.(ctx := Unplaced(k), state := RUNNING, waitList := [], handle := handle, priority := Signed(priority)))
  }

  /** SWI 8: the first unused entry becomes a thread with the priority, entry, argument and stack pointer in r0 to r3,
      and r1 gets its handle. */
  lemma CreationAdds<H(!new)>(m: Multi<H>, t: nat, handle: u32)
    requires Calls(m, t, 8) && m.spare != [] && Proper(m.spare[0])
    requires var entry := m.tasks[t].core.r[1]; entry % 2 == 1 || entry % 4 == 0
    ensures var r := m.tasks[t].core.r;
      Act(m, t, Serve(Service.CreateThread(handle))) ==
        Some(m.(tasks := Told(m.tasks, t, handle) + [NewTask(m.spare[0], handle, r[0], r[1], r[2], r[3])],
                spare := m.spare[1..]))
  {
    hide Act, SwiAt, Unplaced, Answered, Passed, Told, Created, Proper, Signed;
    CallIsServed(m, t, 8, Service.CreateThread(handle));
    BackAgain(m.tasks, t, 0);
    AnswersTwice(m.tasks, t, handle);
    var r := m.tasks[t].core.r;
    CreatedIsNew(m.spare[0], handle, r[0], r[1], r[2], r[3]);
  }

  lemma CreatedIsNew(e: Thread, handle: u32, priority: u32, entry: u32, arg: u32, sp: u32)
    requires Proper(e) && (entry % 2 == 1 || entry % 4 == 0)
    ensures var n := Created(e, handle, priority, entry, arg, sp);
      Resumable(n.ctx) && TaskOf(n) == NewTask(e, handle, priority, entry, arg, sp)
  {
    hide Signed, Unplaced;
    var k := e.ctx;
    assert k.r[0 := arg] == [arg] + k.r[1..];
    UnplacedStays(e, handle, priority, entry, arg, sp);
  }

  lemma UnplacedStays(e: Thread, handle: u32, priority: u32, entry: u32, arg: u32, sp: u32)
    requires Proper(e)
    ensures Unplaced(Created(e, handle, priority, entry, arg, sp).ctx) == Unplaced(e.ctx)
  {
    hide Signed;
  }
}
