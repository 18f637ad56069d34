/** Threads as processors of their own: what a thread is without the multiplexing, and what system calls do to it
    (src/arm11/threads.c, src/svc.c). */
module Processors {
  import opened Words
  import opened Architecture
  import opened Memory
  import opened Threads
  import opened SystemCalls
  import Cpu

  // ---- A thread as a processor -------------------------------------------

  /** The programmer's view of a saved thread: its PC is the instruction that comes next. */
  function CoreOf(k: Context): Core
    requires Sized(k)
  {
    Core(k.r + [k.sp, k.lr], if k.mode < Cpu.PRIMEPIPE then Wrap(k.pc + Size(k.t)) else k.r15,
         Flags(k.n, k.z, k.c, k.v), k.t, Others(k.q, k.ge, k.e, k.a, k.i), k.cpsr)
  }

  /** Can the interpreter go on with the thread? Its r15 is where the way to start the next instruction expects it. */
  predicate Resumable(k: Context) {
    && Sized(k) && WellFormed(CoreOf(k))
    && (k.mode < Cpu.PCINCED ==> k.r15 == Wrap(k.pc + 2 * Size(k.t)))
    && (Cpu.PCINCED <= k.mode < Cpu.PRIMEPIPE ==> k.r15 == Wrap(k.pc + 3 * Size(k.t)))
  }

  ghost predicate AllResumable(ts: seq<Thread>) { forall i :: 0 <= i < |ts| ==> Proper(ts[i]) && Resumable(ts[i].ctx) }

  /** A context without what the interpreter works on. */
  function Unplaced(k: Context): Context {
    k.(r := seq(13, _ => 0), sp := 0, lr := 0, pc := 0, cpsr := 0, mode := 0, r15 := 0,
       n := false, z := false, c := false, v := false, i := 0, ge := 0, e := false, a := false, q := false, t := false,
       decoded := 0, loaded := 0, decodedAddr := 0, loadedAddr := 0)
  }

  /** A context that starts at the core's next instruction, as that of a new thread does. */
  function Placed(k: Context, a: Core): Context
    requires |a.r| == 15
  {
    k.(r := a.r[..13], sp := a.r[13], lr := a.r[14], pc := a.pc, cpsr := a.psr, mode := Cpu.RESUME, r15 := a.pc,
       n := a.f.n, z := a.f.z, c := a.f.c, v := a.f.v,
       i := a.other.i, ge := a.other.ge, e := a.other.e, a := a.other.a, q := a.other.q, t := a.thumb)
  }

  /** A thread as a processor of its own: its programmer's view, and what else belongs to it. */
  datatype Task = Task(core: Core, rest: Thread)

  predicate ProperTask(u: Task) { WellFormed(u.core) && Proper(u.rest) && u.rest.ctx == Unplaced(u.rest.ctx) }

  function TaskOf(t: Thread): Task
    requires Proper(t)
  {
    Task(CoreOf(t.ctx), t.(ctx := Unplaced(t.ctx)))
  }

  function ThreadOf(u: Task): Thread
    requires ProperTask(u)
  {
    u.rest.(ctx := Placed(u.rest.ctx, u.core))
  }

  predicate AllProperTasks(us: seq<Task>) { |us| <= MAX_THREADS && forall i :: 0 <= i < |us| ==> ProperTask(us[i]) }

  function Tasks(ts: seq<Thread>): (us: seq<Task>)
    requires forall i :: 0 <= i < |ts| ==> Proper(ts[i])
    ensures |us| == |ts| && forall i :: 0 <= i < |ts| ==> us[i] == TaskOf(ts[i])
  {
    seq(|ts|, i requires 0 <= i < |ts| => TaskOf(ts[i]))
  }

  function ThreadsOf(us: seq<Task>): (ts: seq<Thread>)
    requires AllProperTasks(us)
    ensures |ts| == |us| && forall i :: 0 <= i < |us| ==> ts[i] == ThreadOf(us[i])
  {
    seq(|us|, i requires 0 <= i < |us| => ThreadOf(us[i]))
  }

  lemma TaskIsProper(t: Thread)
    requires Proper(t) && Resumable(t.ctx)
    ensures ProperTask(TaskOf(t))
  {
  }

  /** Every task is that of a thread. */
  lemma TaskOfThread(u: Task)
    requires ProperTask(u)
    ensures Proper(ThreadOf(u)) && Resumable(ThreadOf(u).ctx) && TaskOf(ThreadOf(u)) == u
  {
    var k := Placed(u.rest.ctx, u.core);
    assert k.r + [k.sp, k.lr] == u.core.r;
  }

  lemma TasksOfThreads(us: seq<Task>)
    requires AllProperTasks(us)
    ensures AllResumable(ThreadsOf(us)) && Tasks(ThreadsOf(us)) == us
  {
    hide ProperTask, ThreadOf, TaskOf, Resumable, Proper;
    forall i | 0 <= i < |us|
      ensures Proper(ThreadsOf(us)[i]) && Resumable(ThreadsOf(us)[i].ctx) && TaskOf(ThreadsOf(us)[i]) == us[i]
    {
      TaskOfThread(us[i]);
    }
  }

  /** Waking up, seen as a processor. */
  function WakeTask(u: Task, answers: seq<Answer>): Task
    requires ProperTask(u) && |answers| <= |u.rest.waitList|
  {
    if Woken(u.rest, answers)
    then Task(u.core.(r := u.core.r[1 := Found(u.rest, answers)]), u.rest.(state := RUNNING))
    else u
  }

  lemma WakeCommutes(t: Thread, answers: seq<Answer>)
    requires Proper(t) && Resumable(t.ctx) && |answers| <= |t.waitList|
    ensures Proper(Wake(t, answers)) && Resumable(Wake(t, answers).ctx)
    ensures ProperTask(TaskOf(t)) && TaskOf(Wake(t, answers)) == WakeTask(TaskOf(t), answers)
  {
    hide FirstReady;
    TaskIsProper(t);
    var k := t.ctx;
    if Woken(t, answers) {
      var x := Found(t, answers);
      assert Found(TaskOf(t).rest, answers) == x;
      assert k.r[1 := x] + [k.sp, k.lr] == (k.r + [k.sp, k.lr])[1 := x];
    }
  }

  // ---- The table behind the tasks ----------------------------------------

  /** The tasks that have not stopped, in order. */
  function Living(us: seq<Task>): (vs: seq<Task>)
    ensures |vs| <= |us|
  {
    if us == [] then [] else (if us[0].rest.state == STOPPED then [] else [us[0]]) + Living(us[1..])
  }

  lemma {:induction false} LivingIsAlive(ts: seq<Thread>)
    requires AllResumable(ts)
    ensures AllResumable(Alive(ts)) && Tasks(Alive(ts)) == Living(Tasks(ts))
  {
    hide TaskOf, Proper, Resumable;
    if ts != [] {
      LivingIsAlive(ts[1..]);
      StateKept(ts[0]);
      assert Tasks(ts)[1..] == Tasks(ts[1..]);
      assert Alive(ts) == (if ts[0].state == STOPPED then [] else [ts[0]]) + Alive(ts[1..]);
    }
  }

  lemma StateKept(t: Thread)
    requires Proper(t)
    ensures TaskOf(t).rest == t.(ctx := TaskOf(t).rest.ctx)
  {
  }

  lemma TasksAreProper(ts: seq<Thread>)
    requires AllResumable(ts) && |ts| <= MAX_THREADS
    ensures AllProperTasks(Tasks(ts))
  {
    hide ProperTask, TaskOf, Resumable, Proper;
    forall i | 0 <= i < |ts|
      ensures ProperTask(Tasks(ts)[i])
    {
      TaskIsProper(ts[i]);
    }
  }

  /** Replacing one thread replaces one task. */
  lemma TasksUpdate(ts: seq<Thread>, i: nat, t: Thread)
    requires AllResumable(ts) && i < |ts| && Proper(t) && Resumable(t.ctx)
    ensures AllResumable(ts[i := t]) && Tasks(ts[i := t]) == Tasks(ts)[i := TaskOf(t)]
  {
    hide TaskOf, Resumable, Proper;
  }

  /** A thread whose context moves on in what the interpreter works on. */
  lemma TaskMoves(ts: seq<Thread>, i: nat, k: Context)
    requires AllResumable(ts) && i < |ts| && Sized(k) && Resumable(k) && Unplaced(k) == Unplaced(ts[i].ctx)
    ensures var us := ts[i := ts[i].(ctx := k)];
      AllResumable(us) && Tasks(us) == Tasks(ts)[i := Tasks(ts)[i].(core := CoreOf(k))]
  {
    hide Resumable, CoreOf, Unplaced;
  }

  /** Asking on behalf of a thread is asking on behalf of its task. */
  lemma SameConsultation<H>(ask: (H, u32) -> (Answer, H), h: H, t: Thread, answers: seq<Answer>)
    requires Proper(t)
    ensures Consult(ask, h, TaskOf(t).rest) == Consult(ask, h, t)
    ensures MayRun(TaskOf(t).rest, answers) == MayRun(t, answers)
  {
    hide Replies;
    StateKept(t);
  }

  // ---- System calls on tasks ---------------------------------------------

  /** The system calls that act on threads; their arguments are registers of the thread that makes them, except for what
      other parts of the system find out: whether a handle is an arbiter's, what a thread waits for and its result code,
      and the handle of a new thread. */
  datatype Service =
    | ExitThread
    | CloseThread
    | SetPriority
    | GetPriority
    | WaitFor(list: seq<u32>, all: bool, ret: u32)
    | Arbitrate(valid: bool)
    | CreateThread(handle: u32)

  function Rests(us: seq<Task>): (rs: seq<Thread>)
    ensures |rs| == |us| && forall i :: 0 <= i < |us| ==> rs[i] == us[i].rest
  {
    seq(|us|, i requires 0 <= i < |us| => us[i].rest)
  }

  function WithRests(us: seq<Task>, rs: seq<Thread>): (vs: seq<Task>)
    requires |rs| == |us|
    ensures |vs| == |us| && forall i :: 0 <= i < |us| ==> vs[i] == us[i].(rest := rs[i])
  {
    seq(|us|, i requires 0 <= i < |us| => us[i].(rest := rs[i]))
  }

  /** Register n of task t becomes x. */
  function Answered(us: seq<Task>, t: nat, n: nat, x: u32): (vs: seq<Task>)
    requires t < |us| && |us[t].core.r| == 15 && n < 13
    ensures |vs| == |us| && |vs[t].core.r| == 15
  {
    us[t := us[t].(core := us[t].core.(r := us[t].core.r[n := x]))]
  }

  function Exited(us: seq<Task>, t: nat): (vs: seq<Task>)
    requires t < |us| && |us[t].core.r| == 15
    ensures |vs| == |us|
  {
    var rests := Rests(us);
    WithRests(Answered(us, t, 0, 0), rests[t := rests[t].(state := STOPPED)])
  }

  /** The thread whose handle is in r0 stops; r0 tells whether there is one. */
  function Closed(us: seq<Task>, t: nat): (vs: seq<Task>)
    requires t < |us| && |us[t].core.r| == 15
    ensures |vs| == |us|
  {
    var rests := Rests(us);
    var id := FindId(rests, t, us[t].core.r[0]);
    var rs := if id < 0 then rests else rests[id := rests[id].(state := STOPPED)];
    Answered(WithRests(us, rs), t, 0, if id < 0 then 0xFFFF_FFFF else 0)
  }

  /** The thread whose handle is in r0 gets the priority in r1. */
  function Prioritized(us: seq<Task>, t: nat): (vs: seq<Task>)
    requires t < |us| && |us[t].core.r| == 15
    ensures |vs| == |us|
  {
    var rests, r := Rests(us), us[t].core.r;
    var id := FindId(rests, t, r[0]);
    Answered(WithRests(us, if id < 0 then rests else rests[id := rests[id].(priority := Signed(r[1]))]), t, 0, 0)
  }

  /** The priority of the thread whose handle is in r1 goes to r1. */
  function Asked(us: seq<Task>, t: nat): (vs: seq<Task>)
    requires t < |us| && |us[t].core.r| == 15
    ensures |vs| == |us|
  {
    Answered(Answered(us, t, 1, PriorityOf(Rests(us), t, us[t].core.r[1])), t, 0, 0)
  }

  /** The thread waits for the handles of a list, all or any of them. */
  function Waited(us: seq<Task>, t: nat, list: seq<u32>, all: bool, ret: u32): (vs: seq<Task>)
    requires t < |us| && |us[t].core.r| == 15
    ensures |vs| == |us|
  {
    var rests := Rests(us);
    Answered(WithRests(us, rests[t := WaitingFor(rests[t], list, all)]), t, 0, ret)
  }

  /** An arbitration with its arguments in r0 to r3, and its result. */
  function Judged(us: seq<Task>, t: nat, f: Flat, valid: bool): (r: Option<(seq<Task>, Flat, u32)>)
    requires t < |us| && |us[t].core.r| == 15
    ensures r.Some? ==> |r.value.0| == |us| && |r.value.0[t].core.r| == 15
  {
    var r := us[t].core.r;
    match Arbitration(Rests(us), t, f, valid, r[0], r[1], r[2], Signed(r[3]))
    case None => None
    case Some(a) => Some((WithRests(us, a.0), a.1, a.2))
  }

  /** The result goes to r0. */
  function Arbitrated(us: seq<Task>, t: nat, f: Flat, valid: bool): (r: Option<(seq<Task>, Flat)>)
    requires t < |us| && |us[t].core.r| == 15
    ensures r.Some? ==> |r.value.0| == |us|
  {
    match Judged(us, t, f, valid) case None => None case Some(a) => Some((Answered(a.0, t, 0, a.2), a.1))
  }

  /** A new thread in the first unused entry: its priority, start, argument and stack pointer are in r0 to r3; r1 gets
      its handle. */
  function Grown(us: seq<Task>, t: nat, spare: seq<Thread>, handle: u32): (r: Option<seq<Task>>)
    requires t < |us| && |us[t].core.r| == 15
    ensures r.Some? ==> |r.value| == |us| + 1 && spare != []
  {
    var r := us[t].core.r;
    if spare == [] || !Proper(spare[0]) then None
    else
      var n := Created(spare[0], handle, r[0], r[1], r[2], r[3]);
      if !Resumable(n.ctx) then None else Some(Answered(Answered(us, t, 1, handle), t, 0, 0) + [TaskOf(n)])
  }

  /** What a system call of task t does to tasks, memory and unused entries. */
  function Served(us: seq<Task>, t: nat, f: Flat, spare: seq<Thread>, call: Service):
    (r: Option<(seq<Task>, Flat, seq<Thread>)>)
    requires t < |us| && |us[t].core.r| == 15
    ensures r.Some? ==> |r.value.0| >= |us|
  {
    match call
    case ExitThread => Some((Exited(us, t), f, spare))
    case CloseThread => Some((Closed(us, t), f, spare))
    case SetPriority => Some((Prioritized(us, t), f, spare))
    case GetPriority => Some((Asked(us, t), f, spare))
    case WaitFor(list, all, ret) => if |list| >= TWO32 then None else Some((Waited(us, t, list, all, ret), f, spare))
    case Arbitrate(valid) =>
      (match Arbitrated(us, t, f, valid) case None => None case Some(a) => Some((a.0, a.1, spare)))
    case CreateThread(handle) =>
      (match Grown(us, t, spare, handle) case None => None case Some(vs) => Some((vs, f, spare[1..])))
  }

  /** What the tasks of a table know of it. */
  function Stripped(ts: seq<Thread>): (rs: seq<Thread>)
    ensures |rs| == |ts| && forall i :: 0 <= i < |ts| ==> rs[i] == ts[i].(ctx := Unplaced(ts[i].ctx))
  {
    seq(|ts|, i requires 0 <= i < |ts| => ts[i].(ctx := Unplaced(ts[i].ctx)))
  }

  lemma RestsOfTasks(ts: seq<Thread>)
    requires AllResumable(ts)
    ensures Rests(Tasks(ts)) == Stripped(ts)
  {
    hide Unplaced, CoreOf, Resumable, Proper;
  }

  /** Do two tables have the same contexts? */
  ghost predicate SameContexts(ts: seq<Thread>, us: seq<Thread>) {
    |us| == |ts| && forall i :: 0 <= i < |ts| ==> us[i].ctx == ts[i].ctx
  }

  /** A change of threads that keeps their contexts. */
  lemma RestsChange(ts: seq<Thread>, us: seq<Thread>)
    requires AllResumable(ts) && SameContexts(ts, us) && AllProper(us)
    ensures AllResumable(us) && Tasks(us) == WithRests(Tasks(ts), Stripped(us))
  {
    hide Unplaced, CoreOf, Resumable;
  }

  /** A change of one thread. */
  lemma RestChanges(ts: seq<Thread>, id: nat, t: Thread)
    requires AllResumable(ts) && id < |ts| && Proper(t) && t.ctx == ts[id].ctx
    ensures var us, rs := ts[id := t], Stripped(ts); var u := t.(ctx := rs[id].ctx);
      AllResumable(us) && Rests(Tasks(ts)) == rs && Tasks(us) == WithRests(Tasks(ts), rs[id := u])
  {
    hide Unplaced, CoreOf, Resumable, Proper;
    RestsOfTasks(ts);
    RestsChange(ts, ts[id := t]);
    var rs := Stripped(ts);
    assert Stripped(ts[id := t]) == rs[id := t.(ctx := rs[id].ctx)];
  }

  /** A change of a register. */
  lemma RegisterChanges(ts: seq<Thread>, t: nat, n: nat, x: u32)
    requires AllResumable(ts) && t < |ts| && n < 13
    ensures var us := ts[t := WithRegister(ts[t], n, x)]; var k := ts[t].ctx;
      && |Tasks(ts)[t].core.r| == 15 && Tasks(ts)[t].core.r[..13] == k.r
      && AllResumable(us) && Tasks(us) == Answered(Tasks(ts), t, n, x)
  {
    hide Proper;
    var k := ts[t].ctx;
    assert k.r[n := x] + [k.sp, k.lr] == (k.r + [k.sp, k.lr])[n := x];
    TasksUpdate(ts, t, WithRegister(ts[t], n, x));
  }

  lemma RestsKept(us: seq<Task>, t: nat, n: nat, x: u32)
    requires t < |us| && |us[t].core.r| == 15 && n < 13
    ensures Rests(Answered(us, t, n, x)) == Rests(us)
  {
  }

  lemma StillProper(t: Thread, state: RunState, prio: int)
    requires Proper(t)
    ensures Proper(t.(state := state)) && Proper(t.(priority := prio))
  {
  }

  lemma WaitingIsProper(t: Thread, list: seq<u32>, all: bool)
    requires Proper(t) && |list| < TWO32
    ensures Proper(WaitingFor(t, list, all))
  {
  }

  lemma NothingChanges(us: seq<Task>)
    ensures WithRests(us, Rests(us)) == us
  {
  }

  lemma OneMoreTask(ts: seq<Thread>, t: Thread)
    requires AllResumable(ts) && Proper(t) && Resumable(t.ctx)
    ensures AllResumable(ts + [t]) && Tasks(ts + [t]) == Tasks(ts) + [TaskOf(t)]
  {
    hide Resumable, Proper, TaskOf;
  }

  lemma AnswersBeforeLast(us: seq<Task>, u: Task, t: nat, n: nat, x: u32)
    requires t < |us| && |us[t].core.r| == 15 && n < 13
    ensures Answered(us + [u], t, n, x) == Answered(us, t, n, x) + [u]
  {
  }

  /** Searching by handle does not look at contexts. */
  lemma SameId(ts: seq<Thread>, current: int, handle: u32)
    requires 0 <= current < |ts|
    ensures FindId(Stripped(ts), current, handle) == FindId(ts, current, handle)
    ensures PriorityOf(Stripped(ts), current, handle) == PriorityOf(ts, current, handle)
  {
    hide Unplaced, Wrap;
    var a, b := FirstWith(Stripped(ts), handle), FirstWith(ts, handle);
    assert forall k :: 0 <= k < |ts| ==> Stripped(ts)[k].handle == ts[k].handle;
  }

  lemma {:induction false} SameForemost(ts: seq<Thread>, arbiter: u32, addr: u32)
    ensures Foremost(Stripped(ts), arbiter, addr) == Foremost(ts, arbiter, addr)
  {
    hide Unplaced;
    if ts != [] {
      var last := |ts| - 1;
      assert Stripped(ts)[..last] == Stripped(ts[..last]);
      SameForemost(ts[..last], arbiter, addr);
    }
  }

  lemma {:induction false} SameReleased(ts: seq<Thread>, arbiter: u32, addr: u32, n: nat)
    ensures Released(Stripped(ts), arbiter, addr, n) == Stripped(Released(ts, arbiter, addr, n))
    decreases n
  {
    hide Unplaced, Foremost, Stripped;
    var id := Foremost(ts, arbiter, addr);
    SameForemost(ts, arbiter, addr);
    if n > 0 && id >= 0 {
      StrippedResumed(ts, id);
      SameReleased(ts[id := Resumed(ts[id])], arbiter, addr, n - 1);
    }
  }

  lemma StrippedResumed(ts: seq<Thread>, id: nat)
    requires id < |ts|
    ensures Stripped(ts[id := Resumed(ts[id])]) == Stripped(ts)[id := Resumed(Stripped(ts)[id])]
  {
    hide Unplaced;
  }

  /** Releasing keeps the contexts. */
  lemma ReleasedContexts(ts: seq<Thread>, arbiter: u32, addr: u32, n: nat)
    ensures SameContexts(ts, Released(ts, arbiter, addr, n))
  {
    hide Released, Foremost;
    ReleasesForemost(ts, arbiter, addr, n);
  }

  lemma SameAllReleased(ts: seq<Thread>, arbiter: u32, addr: u32)
    ensures AllReleased(Stripped(ts), arbiter, addr) == Stripped(AllReleased(ts, arbiter, addr))
    ensures SameContexts(ts, AllReleased(ts, arbiter, addr))
  {
    hide Unplaced;
  }

  lemma SameSuspended(ts: seq<Thread>, t: nat, arbiter: u32, addr: u32)
    requires t < |ts|
    ensures Suspended(Stripped(ts), t, arbiter, addr) == Stripped(Suspended(ts, t, arbiter, addr))
    ensures SameContexts(ts, Suspended(ts, t, arbiter, addr))
  {
    hide Unplaced;
  }

  lemma SameArbitration(ts: seq<Thread>, t: nat, f: Flat, valid: bool, arbiter: u32, addr: u32, kind: u32, value: int)
    requires t < |ts|
    ensures var a := Arbitration(ts, t, f, valid, arbiter, addr, kind, value);
      && (a.Some? ==> SameContexts(ts, a.value.0))
      && Arbitration(Stripped(ts), t, f, valid, arbiter, addr, kind, value)
           == match a case None => None case Some(b) => Some((Stripped(b.0), b.1, b.2))
  {
    hide Unplaced, Stripped, Released, AllReleased, Suspended, LoadedWord, Stored, Bytes, Wrap, Signed;
    SameSuspended(ts, t, arbiter, addr);
    SameAllReleased(ts, arbiter, addr);
    if value >= 0 {
      SameReleased(ts, arbiter, addr, value);
      ReleasedContexts(ts, arbiter, addr, value);
    }
  }

  /** Judging the tasks is judging the threads. */
  lemma JudgedMeans(ts: seq<Thread>, t: nat, f: Flat, valid: bool)
    requires AllResumable(ts) && t < |ts|
    ensures var r, us := ts[t].ctx.r, Tasks(ts);
      var a := Arbitration(ts, t, f, valid, r[0], r[1], r[2], Signed(r[3]));
      && |us[t].core.r| == 15 && (a.Some? ==> SameContexts(ts, a.value.0))
      && Judged(us, t, f, valid)
           == match a case None => None case Some(b) => Some((WithRests(us, Stripped(b.0)), b.1, b.2))
  {
    hide Unplaced, Stripped, Arbitration, Signed, Proper, WithRests;
    var r := ts[t].ctx.r;
    RestsOfTasks(ts);
    SameArbitration(ts, t, f, valid, r[0], r[1], r[2], Signed(r[3]));
  }
}
