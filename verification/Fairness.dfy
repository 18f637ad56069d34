/** Rounds are fair (src/arm11/threads.c): what happens in a round, in a turn and in a slice, told step by step. */
module Fairness {
  import opened Words
  import opened Architecture
  import opened Memory
  import opened Machine
  import opened Threads
  import opened Processors
  import opened Multitasking

  // ---- Order -------------------------------------------------------------

  /** Do the actions lead from each state to the next? */
  ghost predicate ActionByAction<H(!new)>(t: nat, acts: seq<Action<H>>, ms: seq<Multi<H>>) {
    |ms| == |acts| + 1 && forall i :: 0 <= i < |acts| ==> Act(ms[i], t, acts[i]) == Some(ms[i + 1])
  }

  /** The actions of a slice happen in their order. */
  lemma {:induction false} ActsInOrder<H(!new)>(m: Multi<H>, t: nat, acts: seq<Action<H>>) returns (ms: seq<Multi<H>>)
    requires Acts(m, t, acts).Some?
    ensures ActionByAction(t, acts, ms) && ms[0] == m && ms[|acts|] == Acts(m, t, acts).value
  {
    hide Act;
    if acts == [] { return [m]; }
    var last := |acts| - 1;
    ms := ActsInOrder(m, t, acts[..last]);
    ms := ms + [Acts(m, t, acts).value];
  }

  /** Does each thread have its turn, the first one first, up to the last of those that there are in the end? */
  ghost predicate TurnByTurn<H(!new)>(w: World<H>, ms: seq<Multi<H>>) {
    && ms != [] && (forall i :: 0 <= i < |ms| - 1 ==> Turn(w, i, ms[i]) == Some(ms[i + 1]))
    && |ms| - 1 == var n := |ms[|ms| - 1].tasks|; if n < MAX_THREADS then n else MAX_THREADS
  }

  /** A round gives every thread a turn, in their order, and includes the threads that are created on the way. */
  lemma RoundIsFair<H(!new)>(w: World<H>, m: Multi<H>) returns (ms: seq<Multi<H>>)
    requires Round(w, m).Some?
    ensures TurnByTurn(w, ms) && ms[0] == m && Round(w, m) == Some(Removed(ms[|ms| - 1]))
  {
    hide Turn, Removed;
    ms := TurnsInOrder(w, 0, m);
  }

  lemma {:induction false} TurnsInOrder<H(!new)>(w: World<H>, t: nat, m: Multi<H>) returns (ms: seq<Multi<H>>)
    requires Turns(w, t, m).Some? && t <= |m.tasks| && t <= MAX_THREADS
    ensures ms != [] && ms[0] == m && ms[|ms| - 1] == Turns(w, t, m).value
    ensures forall i :: 0 <= i < |ms| - 1 ==> Turn(w, t + i, ms[i]) == Some(ms[i + 1])
    ensures t + |ms| - 1 == var n := |ms[|ms| - 1].tasks|; if n < MAX_THREADS then n else MAX_THREADS
    decreases MAX_THREADS - t
  {
    hide Turn;
    if t >= |m.tasks| || t >= MAX_THREADS { return [m]; }
    var n := Turn(w, t, m).value;
    TurnKeepsThreads(w, t, m);
    ms := TurnsInOrder(w, t + 1, n);
    ms := [m] + ms;
  }

  /** The other way round: whatever goes turn by turn is what the round does. */
  lemma FairIsRound<H(!new)>(w: World<H>, ms: seq<Multi<H>>)
    requires TurnByTurn(w, ms)
    ensures Round(w, ms[0]) == Some(Removed(ms[|ms| - 1]))
  {
    hide Turn, Removed;
    OrderedTurns(w, ms, 0);
  }

  lemma {:induction false} OrderedTurns<H(!new)>(w: World<H>, ms: seq<Multi<H>>, t: nat)
    requires TurnByTurn(w, ms) && t < |ms|
    ensures Turns(w, t, ms[t]) == Some(ms[|ms| - 1])
    decreases |ms| - t
  {
    hide Turn;
    if t < |ms| - 1 {
      assert Turn(w, t, ms[t]) == Some(ms[t + 1]);
      TurnIsOfThread(w, t, ms[t]);
      OrderedTurns(w, ms, t + 1);
    }
  }

  lemma TurnIsOfThread<H>(w: World<H>, t: nat, m: Multi<H>)
    requires Turn(w, t, m).Some?
    ensures t < |m.tasks|
  {
  }

  lemma TurnKeepsThreads<H>(w: World<H>, t: nat, m: Multi<H>)
    requires Turn(w, t, m).Some?
    ensures |m.tasks| <= |Turn(w, t, m).value.tasks|
  {
    hide Acts, MayRun, WakeTask, Consult, ProperTask;
    var u := m.tasks[t];
    var (answers, h) := Consult(w.ask, m.handles, u.rest);
    var n := m.(handles := h, tasks := m.tasks[t := WakeTask(u, answers)]);
    if Acts(n, t, w.script(t)).Some? { ActsKeepThreads(n, t, w.script(t)); }
  }

  lemma {:induction false} ActsKeepThreads<H>(m: Multi<H>, t: nat, acts: seq<Action<H>>)
    requires Acts(m, t, acts).Some?
    ensures |m.tasks| <= |Acts(m, t, acts).value.tasks|
  {
    hide Act;
    if acts != [] {
      var last := |acts| - 1;
      ActsKeepThreads(m, t, acts[..last]);
      ActKeepsThreads(Acts(m, t, acts[..last]).value, t, acts[last]);
    }
  }

  /** Does each round lead from its state to the next? */
  ghost predicate RoundByRound<H(!new)>(ws: seq<World<H>>, ms: seq<Multi<H>>) {
    |ms| == |ws| + 1 && forall i :: 0 <= i < |ws| ==> Round(ws[i], ms[i]) == Some(ms[i + 1])
  }

  lemma {:induction false} RoundsInOrder<H(!new)>(ws: seq<World<H>>, m: Multi<H>) returns (ms: seq<Multi<H>>)
    requires Rounds(ws, m).Some?
    ensures RoundByRound(ws, ms) && ms[0] == m && ms[|ws|] == Rounds(ws, m).value
  {
    hide Round;
    if ws == [] { return [m]; }
    var last := |ws| - 1;
    ms := RoundsInOrder(ws[..last], m);
    ms := ms + [Rounds(ws, m).value];
  }

  // ---- Turns -------------------------------------------------------------

  /** A thread that runs has its slice; one that has stopped or waits for an arbitration has nothing. */
  lemma TurnByState<H>(w: World<H>, t: nat, m: Multi<H>)
    requires t < |m.tasks| && ProperTask(m.tasks[t])
    ensures m.tasks[t].rest.state == RUNNING ==> Turn(w, t, m) == Acts(m, t, w.script(t))
    ensures m.tasks[t].rest.state == STOPPED || m.tasks[t].rest.state == WAITING_ARB ==> Turn(w, t, m) == Some(m)
  {
    hide Acts, ProperTask;
    assert m.tasks[t := m.tasks[t]] == m.tasks;
  }

  /** The task wakes up with x in r1. */
  function Woke(u: Task, x: u32): Task
    requires |u.core.r| == 15
  {
    Task(u.core.(r := u.core.r[1 := x]), u.rest.(state := RUNNING))
  }

  /** A wait for any of some handles ends with the first that is ready, whose index is in r1 when the thread goes on. */
  lemma TurnOfAny<H>(w: World<H>, t: nat, m: Multi<H>, first: nat)
    requires t < |m.tasks| && ProperTask(m.tasks[t])
    requires m.tasks[t].rest.state == WAITING_SYNC && !m.tasks[t].rest.waitAll
    requires var answers := Replies(w.ask, m.handles, m.tasks[t].rest.waitList, false).0;
      first <= |answers| && Ready !in answers[..first] && (first < |answers| ==> answers[first] == Ready)
    ensures var (answers, h) := Replies(w.ask, m.handles, m.tasks[t].rest.waitList, false);
      Turn(w, t, m) ==
        if first == |answers| then Some(m.(handles := h))
        else Acts(m.(handles := h, tasks := m.tasks[t := Woke(m.tasks[t], first)]), t, w.script(t))
  {
    hide Acts, Replies, WellFormed, Unplaced, FirstReady;
    assert m.tasks[t := m.tasks[t]] == m.tasks;
    var (answers, h) := Replies(w.ask, m.handles, m.tasks[t].rest.waitList, false);
    FirstReadyIs(answers, first);
  }

  lemma FirstReadyIs(answers: seq<Answer>, first: nat)
    requires first <= |answers| && Ready !in answers[..first] && (first < |answers| ==> answers[first] == Ready)
    ensures FirstReady(answers) == first && (Ready in answers <==> first < |answers|)
  {
    var k := FirstReady(answers);
    assert forall i :: 0 <= i < first ==> answers[i] != Ready by { NoneIn(answers, first); }
    assert forall i :: 0 <= i < k ==> answers[i] != Ready by { NoneIn(answers, k); }
    assert first == |answers| ==> answers[..first] == answers;
  }

  lemma NoneIn(answers: seq<Answer>, n: nat)
    requires n <= |answers| && Ready !in answers[..n]
    ensures forall i :: 0 <= i < n ==> answers[i] != Ready
  {
    assert forall i :: 0 <= i < n ==> answers[i] == answers[..n][i];
  }

  /** A wait for all ends when none of them has to be waited for, with their number in r1; one that cannot be waited for
      lets the thread run although it goes on waiting. */
  lemma TurnOfAll<H>(w: World<H>, t: nat, m: Multi<H>)
    requires t < |m.tasks| && ProperTask(m.tasks[t])
    requires m.tasks[t].rest.state == WAITING_SYNC && m.tasks[t].rest.waitAll
    ensures var (answers, h) := Replies(w.ask, m.handles, m.tasks[t].rest.waitList, true);
      Turn(w, t, m) ==
        if NoFunction in answers then Acts(m.(handles := h), t, w.script(t))
        else if Waiting in answers then Some(m.(handles := h))
        else Acts(m.(handles := h, tasks := m.tasks[t := Woke(m.tasks[t], |m.tasks[t].rest.waitList|)]), t, w.script(t))
  {
    hide Acts, Replies, WellFormed, Unplaced;
    assert m.tasks[t := m.tasks[t]] == m.tasks;
  }

  /** Is each handle asked in turn, as the handles before it have left things? */
  ghost predicate AskedInOrder<H(!new)>(
    ask: (H, u32) -> (Answer, H), list: seq<u32>, answers: seq<Answer>, hs: seq<H>) {
    |answers| <= |list| && |hs| == |answers| + 1 &&
    forall i :: 0 <= i < |answers| ==> ask(hs[i], list[i]) == (answers[i], hs[i + 1])
  }

  /** All handles are asked; only a wait for all ends at the first that cannot be waited for. */
  lemma {:induction false} RepliesInOrder<H(!new)>(ask: (H, u32) -> (Answer, H), h: H, list: seq<u32>, all: bool)
    returns (hs: seq<H>)
    ensures var (answers, g) := Replies(ask, h, list, all);
      && AskedInOrder(ask, list, answers, hs) && hs[0] == h && hs[|answers|] == g
      && (all ==> NoFunction !in answers[..if answers == [] then 0 else |answers| - 1])
      && (|answers| < |list| ==> all && NoFunction in answers)
  {
    if list == [] { return [h]; }
    var last := |list| - 1;
    hs := RepliesInOrder(ask, h, list[..last], all);
    var (answers, g) := Replies(ask, h, list[..last], all);
    if !(all && NoFunction in answers) {
      assert |answers| == last;
      assert Replies(ask, h, list, all).0[..last] == answers;
      hs := hs + [ask(g, list[last]).1];
    }
  }

  // ---- Threads that run --------------------------------------------------

  /** Do all threads run, and does the round give them these numbers of instructions? */
  ghost predicate AllRun<H(!new)>(w: World<H>, us: seq<Task>, ns: seq<nat>) {
    && AllProperTasks(us) && |ns| == |us|
    && forall i :: 0 <= i < |us| ==> us[i].rest.state == RUNNING && w.script(i) == [Instructions(ns[i])]
  }

  /** Has each processor from t on run its instructions, on the memory that the one before it has left? */
  ghost predicate EachRan(us: seq<Task>, vs: seq<Task>, t: nat, ns: seq<nat>, fs: seq<Flat>) {
    && |vs| == |us| == |ns| && |fs| == |us| + 1 && AllProperTasks(us)
    && (forall i :: 0 <= i < |us| ==> vs[i].rest == us[i].rest)
    && (forall i :: 0 <= i < t && i < |us| ==> vs[i] == us[i])
    && forall i :: t <= i < |us| ==> EmulatedTurns(us[i].core, fs[i], ns[i]) == Some((vs[i].core, fs[i + 1]))
  }

  /** In a round every processor runs its instructions, in order, on the memory that its predecessor has left, and
      nothing else happens. */
  lemma EveryoneRuns<H(!new)>(w: World<H>, m: Multi<H>, ns: seq<nat>) returns (fs: seq<Flat>)
    requires AllRun(w, m.tasks, ns) && m.tasks != [] && Round(w, m).Some?
    ensures var n := Round(w, m).value;
      && EachRan(m.tasks, n.tasks, 0, ns, fs) && fs[0] == m.memory && fs[|m.tasks|] == n.memory
      && n == m.(tasks := n.tasks, memory := n.memory)
  {
    hide Turns, EmulatedTurns, ProperTask, Living;
    fs := AllTurns(w, 0, m, ns);
    var n := Turns(w, 0, m).value;
    NobodyLeaves(n.tasks);
    assert Removed(n) == n;
  }

  lemma {:induction false} NobodyLeaves(us: seq<Task>)
    requires forall i :: 0 <= i < |us| ==> us[i].rest.state == RUNNING
    ensures Living(us) == us
  {
    if us != [] { NobodyLeaves(us[1..]); }
  }

  lemma {:induction false} AllTurns<H(!new)>(w: World<H>, t: nat, m: Multi<H>, ns: seq<nat>) returns (fs: seq<Flat>)
    requires AllRun(w, m.tasks, ns) && t <= |m.tasks| && Turns(w, t, m).Some?
    ensures var n := Turns(w, t, m).value;
      && EachRan(m.tasks, n.tasks, t, ns, fs) && fs[t] == m.memory && fs[|m.tasks|] == n.memory
      && n == m.(tasks := n.tasks, memory := n.memory)
    decreases |m.tasks| - t
  {
    hide EmulatedTurns, ProperTask, Turn;
    if t == |m.tasks| {
      fs := seq(|m.tasks| + 1, i => m.memory);
    } else {
      OwnSlice(w, t, m, ns[t]);
      var n := Turn(w, t, m).value;
      fs := AllTurns(w, t + 1, n, ns);
      fs := fs[t := m.memory];
    }
  }

  lemma OwnSlice<H>(w: World<H>, t: nat, m: Multi<H>, n: nat)
    requires AllProperTasks(m.tasks) && t < |m.tasks| && m.tasks[t].rest.state == RUNNING
    requires w.script(t) == [Instructions(n)]
    ensures Turn(w, t, m) ==
      match EmulatedTurns(m.tasks[t].core, m.memory, n)
      case None => None
      case Some(s) => Some(m.(tasks := m.tasks[t := m.tasks[t].(core := s.0)], memory := s.1))
    ensures Turn(w, t, m).Some? ==> AllProperTasks(Turn(w, t, m).value.tasks)
  {
    hide Turn, EmulatedTurns, WellFormed, Unplaced, Proper;
    TurnByState(w, t, m);
    assert Acts(m, t, []) == Some(m) && w.script(t)[..0] == [];
    assert Acts(m, t, w.script(t)) == Act(m, t, Instructions(n));
    var s := EmulatedTurns(m.tasks[t].core, m.memory, n);
  }
}
