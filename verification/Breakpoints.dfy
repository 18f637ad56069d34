/** The breakpoint lists of src/gdb/gdbstub.c: descriptors from a fixed pool, linked into a free list and four active
    ones. */
module Breakpoints {
  import opened Words

  const POOL_SIZE := 100
  const NULL := -1
  const LISTS := 5
  const FREE := 0   // then the instruction, write, read and access breakpoints

  /** A descriptor; `next` is the place of another one in the pool, or NULL. */
  datatype Entry = Entry(addr: u32, size: u32, next: int)

  /** What the debugger asked for. */
  datatype Point = Point(addr: u32, size: u32)

  // ---- Chains ------------------------------------------------------------

  /** Following the links from `head` visits exactly the descriptors of s, in order, and ends. */
  predicate Chain(pool: seq<Entry>, head: int, s: seq<nat>)
    decreases |s|
  {
    if s == [] then head == NULL
    else head == s[0] && s[0] < |pool| && Chain(pool, pool[s[0]].next, s[1..])
  }

  function Points(pool: seq<Entry>, s: seq<nat>): (p: seq<Point>)
    requires forall k :: 0 <= k < |s| ==> s[k] < |pool|
    ensures |p| == |s|
  {
    seq(|s|, k requires 0 <= k < |s| => Point(pool[s[k]].addr, pool[s[k]].size))
  }

  lemma {:induction false} ChainIsInPool(pool: seq<Entry>, head: int, s: seq<nat>)
    requires Chain(pool, head, s)
    ensures forall k :: 0 <= k < |s| ==> s[k] < |pool|
    decreases |s|
  {
    if s != [] {
      ChainIsInPool(pool, pool[s[0]].next, s[1..]);
      assert forall k :: 1 <= k < |s| ==> s[k] == s[1..][k - 1];
    }
  }

  /** A descriptor outside the chain may change. */
  lemma {:induction false} ChainElsewhere(pool: seq<Entry>, head: int, s: seq<nat>, n: nat, e: Entry)
    requires Chain(pool, head, s) && n !in s && n < |pool|
    ensures Chain(pool[n := e], head, s)
    decreases |s|
  {
    if s != [] { ChainElsewhere(pool, pool[s[0]].next, s[1..], n, e); }
  }

  /** The descriptors in all lists together. */
  function Total(c: seq<seq<nat>>): multiset<nat>
    requires |c| == LISTS
  {
    multiset(c[0]) + multiset(c[1]) + multiset(c[2]) + multiset(c[3]) + multiset(c[4])
  }

  function Whole(): seq<nat> { seq(POOL_SIZE, i requires 0 <= i < POOL_SIZE => i) }

  /** Every descriptor of the pool is in one list, once. */
  predicate Partition(c: seq<seq<nat>>) {
    |c| == LISTS && Total(c) == multiset(Whole())
  }

  lemma WholeOnce(n: nat)
    ensures multiset(Whole())[n] == if n < POOL_SIZE then 1 else 0
  {
    OnceUpTo(POOL_SIZE, n);
    assert Whole() == UpTo(POOL_SIZE);
  }

  function UpTo(m: nat): seq<nat> { seq(m, i requires 0 <= i < m => i) }

  lemma {:induction false} OnceUpTo(m: nat, n: nat)
    ensures multiset(UpTo(m))[n] == if n < m then 1 else 0
  {
    if m > 0 {
      OnceUpTo(m - 1, n);
      assert UpTo(m) == UpTo(m - 1) + [m - 1];
    }
  }

  /** Lists are disjoint, and none visits a descriptor twice. */
  lemma InOneList(c: seq<seq<nat>>, i: nat, k: nat, j: nat, l: nat)
    requires Partition(c) && i < LISTS && j < LISTS && k < |c[i]| && l < |c[j]| && c[i][k] == c[j][l]
    ensures i == j && k == l && c[i][k] < POOL_SIZE
  {
    var n := c[i][k];
    WholeOnce(n);
    assert n in c[i] && n in c[j];
    if i == j && k != l {
      TwiceInList(c[i], k, l);
    }
  }

  lemma TwiceInList(s: seq<nat>, k: nat, l: nat)
    requires k < |s| && l < |s| && k != l && s[k] == s[l]
    ensures multiset(s)[s[k]] >= 2
  {
    var a, b := if k < l then k else l, if k < l then l else k;
    assert s == s[..a] + [s[a]] + s[a + 1..b] + [s[b]] + s[b + 1..];
  }

  /** The lists hold as many descriptors as the pool has. */
  lemma TotalLength(c: seq<seq<nat>>)
    requires Partition(c)
    ensures |c[0]| + |c[1]| + |c[2]| + |c[3]| + |c[4]| == POOL_SIZE
  {
    assert |Total(c)| == |multiset(Whole())|;
  }

  // ---- Linking -----------------------------------------------------------

  /** The lists are chains in the pool. */
  predicate Linked(pool: seq<Entry>, heads: seq<int>, c: seq<seq<nat>>) {
    && |pool| == POOL_SIZE && |heads| == LISTS && Partition(c)
    && forall i :: 0 <= i < LISTS ==> Chain(pool, heads[i], c[i])
  }

  /** Moving the first free descriptor to the front of an active list. */
  function Moved(c: seq<seq<nat>>, i: nat): seq<seq<nat>>
    requires |c| == LISTS && 0 < i < LISTS && c[FREE] != []
  {
    c[FREE := c[FREE][1..]][i := [c[FREE][0]] + c[i]]
  }

  lemma NotElsewhere(c: seq<seq<nat>>, i: nat, k: nat, j: nat)
    requires Partition(c) && i < LISTS && j < LISTS && k < |c[i]|
    ensures c[i][k] < POOL_SIZE
    ensures j != i ==> c[i][k] !in c[j]
    ensures c[i][k] !in c[i][..k] && c[i][k] !in c[i][k + 1..]
  {
    InOneList(c, i, k, i, k);
    if c[i][k] in c[j] {
      var l :| 0 <= l < |c[j]| && c[j][l] == c[i][k];
      InOneList(c, i, k, j, l);
    }
    if c[i][k] in c[i][..k] {
      var l :| 0 <= l < k && c[i][l] == c[i][k];
      InOneList(c, i, k, i, l);
    }
    if c[i][k] in c[i][k + 1..] {
      var l :| k + 1 <= l < |c[i]| && c[i][l] == c[i][k];
      InOneList(c, i, k, i, l);
    }
  }

  lemma MovedPartition(c: seq<seq<nat>>, i: nat)
    requires Partition(c) && 0 < i < LISTS && c[FREE] != []
    ensures Partition(Moved(c, i))
  {
    assert c[FREE] == [c[FREE][0]] + c[FREE][1..];
  }

  lemma AddKeepsLinked(pool: seq<Entry>, heads: seq<int>, c: seq<seq<nat>>, i: nat, p: Point)
    requires Linked(pool, heads, c) && 0 < i < LISTS && c[FREE] != []
    ensures heads[FREE] == c[FREE][0] < POOL_SIZE
    ensures var n := c[FREE][0];
      Linked(pool[n := Entry(p.addr, p.size, heads[i])], heads[FREE := pool[n].next][i := n], Moved(c, i))
  {
    hide Total, Whole;
    var n := c[FREE][0];
    assert Chain(pool, heads[FREE], c[FREE]);
    var e := Entry(p.addr, p.size, heads[i]);
    MovedPartition(c, i);
    forall j | 0 <= j < LISTS
      ensures Chain(pool[n := e], heads[FREE := pool[n].next][i := n][j], Moved(c, i)[j])
    {
      NotElsewhere(c, FREE, 0, j);
      if j == FREE {
        assert c[FREE][0 + 1..] == c[FREE][1..];
        ChainElsewhere(pool, pool[n].next, c[FREE][1..], n, e);
      } else {
        ChainElsewhere(pool, heads[j], c[j], n, e);
      }
      if j == i { assert ([n] + c[i])[1..] == c[i]; }
    }
  }

  /** Moving descriptor k of an active list to the front of the free list. */
  function Freed(c: seq<seq<nat>>, i: nat, k: nat): seq<seq<nat>>
    requires |c| == LISTS && 0 < i < LISTS && k < |c[i]|
  {
    c[i := c[i][..k] + c[i][k + 1..]][FREE := [c[i][k]] + c[FREE]]
  }

  lemma FreedPartition(c: seq<seq<nat>>, i: nat, k: nat)
    requires Partition(c) && 0 < i < LISTS && k < |c[i]|
    ensures Partition(Freed(c, i, k))
  {
    hide Whole;
    assert c[i] == c[i][..k] + [c[i][k]] + c[i][k + 1..];
  }

  /** The rest of a chain is the chain from its first descriptor. */
  lemma {:induction false} ChainFrom(pool: seq<Entry>, head: int, s: seq<nat>, k: nat)
    requires Chain(pool, head, s) && 0 < k <= |s|
    ensures s[k - 1] < |pool| && Chain(pool, pool[s[k - 1]].next, s[k..])
    decreases k
  {
    if k == 1 {
      assert s[1..] == s[k..];
    } else {
      ChainFrom(pool, pool[s[0]].next, s[1..], k - 1);
      assert s[1..][k - 1..] == s[k..] && s[1..][k - 2] == s[k - 1];
    }
  }

  /** Making descriptor k - 1 point past its successor takes descriptor k out of a chain. */
  lemma {:induction false} Unlinked(pool: seq<Entry>, head: int, s: seq<nat>, k: nat)
    requires Chain(pool, head, s) && 0 < k < |s| && s[k - 1] !in s[..k - 1] && s[k - 1] !in s[k..]
    ensures s[k - 1] < |pool| && s[k] < |pool|
    ensures Chain(pool[s[k - 1] := pool[s[k - 1]].(next := pool[s[k]].next)], head, s[..k] + s[k + 1..])
    decreases k
  {
    ChainIsInPool(pool, head, s);
    var q := pool[s[k - 1] := pool[s[k - 1]].(next := pool[s[k]].next)];
    var t := s[..k] + s[k + 1..];
    if k == 1 {
      assert s[k..] == s[1..] && s[1..][0] == s[1] && s[1..][1..] == s[2..];
      assert t[1..] == s[2..];
      assert s[0] !in s[2..] by { assert forall x :: x in s[2..] ==> x in s[1..]; }
      ChainElsewhere(pool, pool[s[1]].next, s[2..], s[0], pool[s[0]].(next := pool[s[1]].next));
    } else {
      var u := s[1..];
      assert u[k - 2] == s[k - 1] && u[k - 1] == s[k] && u[..k - 2] == s[1..k - 1] && u[k - 1..] == s[k..];
      assert s[k - 1] !in u[..k - 2];
      Unlinked(pool, pool[s[0]].next, u, k - 1);
      assert t[1..] == u[..k - 1] + u[k..];
      assert s[0] == s[..k - 1][0];
    }
  }

  /** The descriptor is unlinked: by its predecessor, or by the head of its list. */
  lemma UnlinkingKeeps(pool: seq<Entry>, heads: seq<int>, c: seq<seq<nat>>, i: nat, k: nat)
    requires Linked(pool, heads, c) && 0 < i < LISTS && k < |c[i]|
    ensures var n := c[i][k];
      n < POOL_SIZE && (k > 0 ==> c[i][k - 1] < POOL_SIZE && c[i][k - 1] != n)
    ensures var n := c[i][k];
      var q := if k == 0 then pool else pool[c[i][k - 1] := pool[c[i][k - 1]].(next := pool[n].next)];
      var h := if k == 0 then heads[i := pool[n].next] else heads;
      forall j :: 0 <= j < LISTS ==> Chain(q, h[j], if j == i then c[i][..k] + c[i][k + 1..] else c[j])
  {
    hide Total, Whole;
    var n := c[i][k];
    NotElsewhere(c, i, k, i);
    assert Chain(pool, heads[i], c[i]);
    if k == 0 {
      ChainFrom(pool, heads[i], c[i], 1);
      assert c[i][..0] + c[i][1..] == c[i][1..];
    } else {
      NotElsewhere(c, i, k - 1, i);
      assert c[i][k - 1 + 1..] == c[i][k..] && n in c[i][k..];
      Unlinked(pool, heads[i], c[i], k);
      forall j | 0 <= j < LISTS && j != i
        ensures Chain(pool[c[i][k - 1] := pool[c[i][k - 1]].(next := pool[n].next)], heads[j], c[j])
      {
        NotElsewhere(c, i, k - 1, j);
        ChainElsewhere(pool, heads[j], c[j], c[i][k - 1], pool[c[i][k - 1]].(next := pool[n].next));
      }
    }
  }

  /** The unlinked descriptor is pushed onto the free list. */
  lemma FreeingKeepsLinked(q: seq<Entry>, h: seq<int>, c: seq<seq<nat>>, i: nat, k: nat)
    requires |q| == POOL_SIZE && |h| == LISTS && Partition(c) && 0 < i < LISTS && k < |c[i]| && c[i][k] < POOL_SIZE
    requires forall j :: 0 <= j < LISTS ==> Chain(q, h[j], if j == i then c[i][..k] + c[i][k + 1..] else c[j])
    ensures var n := c[i][k]; Linked(q[n := q[n].(next := h[FREE])], h[FREE := n], Freed(c, i, k))
  {
    hide Total, Whole;
    var n := c[i][k];
    FreedPartition(c, i, k);
    forall j | 0 <= j < LISTS
      ensures Chain(q[n := q[n].(next := h[FREE])], h[FREE := n][j], Freed(c, i, k)[j])
    {
      NotElsewhere(c, i, k, j);
      ChainElsewhere(q, h[j], if j == i then c[i][..k] + c[i][k + 1..] else c[j], n, q[n].(next := h[FREE]));
      if j == FREE { assert ([n] + c[FREE])[1..] == c[FREE]; }
    }
  }

  // ---- Lists of breakpoints ----------------------------------------------

  /** Without the first breakpoint at an address. */
  function Without(list: seq<Point>, addr: u32): seq<Point> {
    if list == [] then [] else if list[0].addr == addr then list[1..] else [list[0]] + Without(list[1..], addr)
  }

  lemma {:induction false} WithoutAt(list: seq<Point>, addr: u32, k: nat)
    requires k <= |list| && (forall l :: 0 <= l < k ==> list[l].addr != addr) && (k < |list| ==> list[k].addr == addr)
    ensures Without(list, addr) == if k < |list| then list[..k] + list[k + 1..] else list
    decreases k
  {
    if k > 0 {
      WithoutAt(list[1..], addr, k - 1);
      if k < |list| { assert list[..k] + list[k + 1..] == [list[0]] + (list[1..][..k - 1] + list[1..][k..]); }
    }
  }

  /** The pools hold the same breakpoints, whatever their links. */
  predicate SamePoints(p: seq<Entry>, q: seq<Entry>) {
    |p| == |q| && forall n :: 0 <= n < |p| ==> p[n].addr == q[n].addr && p[n].size == q[n].size
  }

  predicate InPool(c: seq<seq<nat>>) {
    |c| == LISTS && forall i, k :: 0 <= i < LISTS && 0 <= k < |c[i]| ==> c[i][k] < POOL_SIZE
  }

  lemma LinkedInPool(pool: seq<Entry>, heads: seq<int>, c: seq<seq<nat>>)
    requires Linked(pool, heads, c)
    ensures InPool(c)
  {
    forall i | 0 <= i < LISTS
      ensures forall k :: 0 <= k < |c[i]| ==> c[i][k] < POOL_SIZE
    {
      ChainIsInPool(pool, heads[i], c[i]);
    }
  }

  /** The active lists: instruction, write, read and access breakpoints. */
  function Active(pool: seq<Entry>, c: seq<seq<nat>>): (lists: seq<seq<Point>>)
    requires |pool| == POOL_SIZE && InPool(c)
    ensures |lists| == 4
  {
    [Points(pool, c[1]), Points(pool, c[2]), Points(pool, c[3]), Points(pool, c[4])]
  }

  function CountAll(lists: seq<seq<Point>>): nat
    requires |lists| == 4
  {
    |lists[0]| + |lists[1]| + |lists[2]| + |lists[3]|
  }

  lemma ActiveAfterAdd(pool: seq<Entry>, heads: seq<int>, c: seq<seq<nat>>, i: nat, p: Point)
    requires Linked(pool, heads, c) && InPool(c) && 0 < i < LISTS && c[FREE] != []
    ensures var n := c[FREE][0];
      InPool(Moved(c, i)) && Active(pool[n := Entry(p.addr, p.size, heads[i])], Moved(c, i))
        == Active(pool, c)[i - 1 := [p] + Active(pool, c)[i - 1]]
  {
    hide Total, Whole, Chain;
    var n := c[FREE][0];
    var q := pool[n := Entry(p.addr, p.size, heads[i])];
    NotElsewhere(c, FREE, 0, i);
    forall j | 0 < j < LISTS
      ensures Points(q, c[j]) == Points(pool, c[j])
    {
      NotElsewhere(c, FREE, 0, j);
      assert forall k :: 0 <= k < |c[j]| ==> c[j][k] in c[j];
    }
    assert Points(q, [n] + c[i]) == [p] + Points(q, c[i]);
  }

  lemma PointsSame(p: seq<Entry>, q: seq<Entry>, s: seq<nat>)
    requires SamePoints(p, q) && forall k :: 0 <= k < |s| ==> s[k] < |p|
    ensures Points(p, s) == Points(q, s)
  {
  }

  lemma PointsWithout(pool: seq<Entry>, s: seq<nat>, k: nat, addr: u32)
    requires (forall l :: 0 <= l < |s| ==> s[l] < |pool|) && k < |s|
    requires pool[s[k]].addr == addr && forall l :: 0 <= l < k ==> pool[s[l]].addr != addr
    ensures Points(pool, s[..k] + s[k + 1..]) == Without(Points(pool, s), addr)
  {
    WithoutAt(Points(pool, s), addr, k);
    assert Points(pool, s[..k] + s[k + 1..]) == Points(pool, s)[..k] + Points(pool, s)[k + 1..];
  }

  lemma ActiveAfterRemove(pool: seq<Entry>, q: seq<Entry>, c: seq<seq<nat>>, i: nat, k: nat, addr: u32)
    requires |pool| == POOL_SIZE && InPool(c) && 0 < i < LISTS && k < |c[i]| && SamePoints(pool, q)
    requires pool[c[i][k]].addr == addr && forall l :: 0 <= l < k ==> pool[c[i][l]].addr != addr
    ensures InPool(Freed(c, i, k))
    ensures Active(q, Freed(c, i, k)) == Active(pool, c)[i - 1 := Without(Active(pool, c)[i - 1], addr)]
  {
    hide Points, Without;
    PointsWithout(pool, c[i], k, addr);
    PointsSame(pool, q, c[i][..k] + c[i][k + 1..]);
    forall j | 0 < j < LISTS
      ensures Points(q, c[j]) == Points(pool, c[j])
    {
      PointsSame(pool, q, c[j]);
    }
  }

  // ---- The stub ----------------------------------------------------------

  /** A command for one of the active lists: Z inserts a breakpoint, z deletes one. */
  datatype Command = Insert(list: nat, p: Point) | Delete(list: nat, addr: u32)

  /** What a command does to the active lists, and whether it is answered with OK. */
  function Effect(lists: seq<seq<Point>>, cmd: Command): (r: (seq<seq<Point>>, bool))
    requires |lists| == 4 && 0 < cmd.list < LISTS
    ensures |r.0| == 4
  {
    var i := cmd.list - 1;
    match cmd
    case Insert(_, p) => if CountAll(lists) < POOL_SIZE then (lists[i := [p] + lists[i]], true) else (lists, false)
    case Delete(_, addr) => (lists[i := Without(lists[i], addr)], true)
  }

  predicate AllListed(cmds: seq<Command>) { forall k :: 0 <= k < |cmds| ==> 0 < cmds[k].list < LISTS }

  function Effects(lists: seq<seq<Point>>, cmds: seq<Command>): (r: (seq<seq<Point>>, seq<bool>))
    requires |lists| == 4 && AllListed(cmds)
    ensures |r.0| == 4
  {
    if cmds == [] then (lists, [])
    else
      var last := |cmds| - 1;
      var (before, answers) := Effects(lists, cmds[..last]);
      var (after, ok) := Effect(before, cmds[last]);
      (after, answers + [ok])
  }

  /** Inserting is refused exactly if a hundred breakpoints are active; deleting what has just been inserted undoes it,
      whatever else the list holds at that address. */
  lemma InsertedAndDeleted(lists: seq<seq<Point>>, i: nat, p: Point)
    requires |lists| == 4 && 0 < i < LISTS
    ensures AllListed([Insert(i, p), Delete(i, p.addr)])
    ensures Effects(lists, [Insert(i, p), Delete(i, p.addr)]) ==
      if |lists[0]| + |lists[1]| + |lists[2]| + |lists[3]| < 100 then (lists, [true, true])
      else (lists[i - 1 := Without(lists[i - 1], p.addr)], [false, true])
  {
    hide Effects, AllListed;
    TwoCommands(lists, Insert(i, p), Delete(i, p.addr));
    var list := lists[i - 1];
    FirstOut(p, list);
    assert lists[i - 1 := [p] + list][i - 1 := list] == lists;
  }

  lemma FirstOut(p: Point, list: seq<Point>)
    ensures Without([p] + list, p.addr) == list
  {
    assert ([p] + list)[1..] == list;
  }

  lemma TwoCommands(lists: seq<seq<Point>>, a: Command, b: Command)
    requires |lists| == 4 && 0 < a.list < LISTS && 0 < b.list < LISTS
    ensures var (first, ok) := Effect(lists, a); var (second, done) := Effect(first, b);
      AllListed([a, b]) && Effects(lists, [a, b]) == (second, [ok, done])
  {
    hide Effect, Effects, AllListed;
    OneCommand(lists, a);
    NextCommand(lists, [a], b);
    var (first, ok) := Effect(lists, a);
    assert [a] + [b] == [a, b] && [ok] + [Effect(first, b).1] == [ok, Effect(first, b).1];
  }

  lemma OneCommand(lists: seq<seq<Point>>, a: Command)
    requires |lists| == 4 && 0 < a.list < LISTS
    ensures AllListed([a]) && Effects(lists, [a]) == (Effect(lists, a).0, [Effect(lists, a).1])
  {
    hide Effect, Effects, AllListed;
    assert AllListed([]) by { NoCommands(); }
    NextCommand(lists, [], a);
    assert [] + [a] == [a] && [] + [Effect(lists, a).1] == [Effect(lists, a).1];
  }

  lemma NoCommands()
    ensures AllListed([])
  {
  }

  lemma NextCommand(lists: seq<seq<Point>>, cmds: seq<Command>, cmd: Command)
    requires |lists| == 4 && AllListed(cmds) && 0 < cmd.list < LISTS
    ensures Effects(lists, []) == (lists, []) && AllListed(cmds + [cmd])
    ensures var (before, answers) := Effects(lists, cmds); var (after, ok) := Effect(before, cmd);
      Effects(lists, cmds + [cmd]) == (after, answers + [ok])
  {
    hide Effect;
    assert (cmds + [cmd])[..|cmds|] == cmds;
  }

  /** A command leaves the other lists alone. */
  lemma OtherListsStay(lists: seq<seq<Point>>, cmd: Command, j: nat)
    requires |lists| == 4 && 0 < cmd.list < LISTS && j < 4 && j != cmd.list - 1
    ensures Effect(lists, cmd).0[j] == lists[j]
  {
  }

  /** The whole pool on the free list. */
  lemma AllFree(pool: seq<Entry>, heads: seq<int>)
    requires |pool| == POOL_SIZE && heads == [0, NULL, NULL, NULL, NULL]
    requires forall k :: 0 <= k < POOL_SIZE ==> pool[k].next == if k < POOL_SIZE - 1 then k + 1 else NULL
    ensures var c := [Whole(), [], [], [], []];
      Linked(pool, heads, c) && InPool(c) && Active(pool, c) == [[], [], [], []]
  {
    hide Whole, Chain, Partition, InPool;
    var c := [Whole(), [], [], [], []];
    WholeIsPartition();
    WholeIsChain(pool, 0);
    assert Whole()[0..] == Whole();
    NoChain(pool);
    assert forall i :: 0 <= i < LISTS ==> Chain(pool, heads[i], c[i]);
    LinkedInPool(pool, heads, c);
  }

  lemma NoChain(pool: seq<Entry>)
    ensures Chain(pool, NULL, []) && Points(pool, []) == []
  {
  }

  class Stub {
    const pool: array<Entry>
    const heads: array<int>
    ghost var c: seq<seq<nat>>

    ghost predicate Valid()
      reads this, pool, heads
    {
      pool.Length == POOL_SIZE && heads.Length == LISTS && Linked(pool[..], heads[..], c) && InPool(c)
    }

    ghost function Lists(): (lists: seq<seq<Point>>)
      requires Valid()
      reads this, pool, heads
      ensures |lists| == 4
    {
      Active(pool[..], c)
    }

    /** All descriptors start on the free list. */
    constructor ()
      ensures Valid() && fresh(pool) && fresh(heads) && Lists() == [[], [], [], []]
    {
      pool := new Entry[POOL_SIZE](i => Entry(0, 0, if i < POOL_SIZE - 1 then i + 1 else NULL));
      heads := new int[LISTS](i => if i == FREE then 0 else NULL);
      c := [Whole(), [], [], [], []];
      new;
      hide Whole, Total, Chain, Linked, InPool, Partition, Active;
      AllFree(pool[..], heads[..]);
    }

    /** Z: takes a descriptor from the free list; fails exactly when all of the pool is in use. */
    method Add(i: nat, addr: u32, size: u32) returns (ok: bool)
      requires Valid() && 0 < i < LISTS
      modifies this`c, pool, heads
      ensures Valid() && (Lists(), ok) == Effect(old(Lists()), Insert(i, Point(addr, size)))
    {
      hide Total, Whole, Points, Partition;
      TotalLength(c);
      ghost var p, h, d := pool[..], heads[..], c;
      var bpoint := heads[FREE];
      assert Chain(p, h[FREE], d[FREE]);
      if bpoint == NULL { return false; }
      AddKeepsLinked(p, h, d, i, Point(addr, size));
      ActiveAfterAdd(p, h, d, i, Point(addr, size));
      heads[FREE] := pool[bpoint].next;
      pool[bpoint] := pool[bpoint].(addr := addr, size := size);
      pool[bpoint] := pool[bpoint].(next := heads[i]);
      heads[i] := bpoint;
      c := Moved(d, i);
      assert pool[..] == p[bpoint := Entry(addr, size, h[i])] && heads[..] == h[FREE := p[bpoint].next][i := bpoint];
      ok := true;
    }

    /** The search of z: the first descriptor of the list with the address, and its predecessor. */
    method Search(i: nat, addr: u32) returns (bpoint: int, last: int, ghost k: nat)
      requires Valid() && 0 < i < LISTS
      ensures k <= |c[i]| && forall l :: 0 <= l < k ==> pool[c[i][l]].addr != addr
      ensures if k < |c[i]| then bpoint == c[i][k] && pool[c[i][k]].addr == addr else bpoint == NULL
      ensures last == if k == 0 then NULL else c[i][k - 1]
    {
      hide Partition, Points;
      bpoint, last, k := heads[i], NULL, 0;
      assert Chain(pool[..], heads[..][i], c[i]) && c[i][0..] == c[i];
      while bpoint != NULL && pool[bpoint].addr != addr
        invariant k <= |c[i]| && Chain(pool[..], bpoint, c[i][k..])
        invariant forall l :: 0 <= l < k ==> pool[c[i][l]].addr != addr
        invariant last == if k == 0 then NULL else c[i][k - 1]
        decreases |c[i]| - k
      {
        assert c[i][k..][0] == c[i][k] && c[i][k..][1..] == c[i][k + 1..];
        last := bpoint;
        bpoint := pool[bpoint].next;
        k := k + 1;
      }
      assert k < |c[i]| ==> c[i][k..][0] == c[i][k];
    }

    /** z: the first descriptor with the address goes back to the free list. */
    method Remove(i: nat, addr: u32)
      requires Valid() && 0 < i < LISTS
      modifies this`c, pool, heads
      ensures Valid() && Lists() == Effect(old(Lists()), Delete(i, addr)).0
    {
      hide Partition, Points, Chain;
      var bpoint, last, k := Search(i, addr);
      ghost var p, h, d := pool[..], heads[..], c;
      if bpoint == NULL {
        PointsAt(p, d[i]);
        WithoutAt(Points(p, d[i]), addr, |d[i]|);
        return;
      }
      UnlinkingKeeps(p, h, d, i, k);
      if last == NULL {
        heads[i] := pool[bpoint].next;
      } else {
        pool[last] := pool[last].(next := pool[bpoint].next);
      }
      ghost var q, g := pool[..], heads[..];
      FreeingKeepsLinked(q, g, d, i, k);
      pool[bpoint] := pool[bpoint].(next := heads[FREE]);
      heads[FREE] := bpoint;
      ActiveAfterRemove(p, pool[..], d, i, k, addr);
      c := Freed(d, i, k);
      assert pool[..] == q[bpoint := q[bpoint].(next := g[FREE])] && heads[..] == g[FREE := bpoint];
    }

    /** Any sequence of commands acts on the active lists as lists of addresses and sizes. */
    method Serve(cmds: seq<Command>) returns (answers: seq<bool>)
      requires Valid() && AllListed(cmds)
      modifies this`c, pool, heads
      ensures Valid() && (Lists(), answers) == Effects(old(Lists()), cmds)
    {
      hide Valid, Lists, Effect;
      answers := [];
      var n := 0;
      while n < |cmds|
        invariant 0 <= n <= |cmds| && Valid() && (Lists(), answers) == Effects(old(Lists()), cmds[..n])
        decreases |cmds| - n
      {
        assert cmds[..n + 1][..n] == cmds[..n];
        var ok := true;
        match cmds[n] {
          case Insert(list, p) => ok := Add(list, p.addr, p.size);
          case Delete(list, addr) =>
            Remove(list, addr);
            DeletesOk(old(Lists()), cmds[..n], cmds[n]);
        }
        answers := answers + [ok];
        n := n + 1;
      }
      assert cmds[..n] == cmds;
    }
  }

  lemma DeletesOk(lists: seq<seq<Point>>, cmds: seq<Command>, cmd: Command)
    requires |lists| == 4 && AllListed(cmds) && cmd.Delete? && 0 < cmd.list < LISTS
    ensures Effect(Effects(lists, cmds).0, cmd).1
  {
  }

  lemma PointsAt(pool: seq<Entry>, s: seq<nat>)
    requires forall k :: 0 <= k < |s| ==> s[k] < |pool|
    ensures forall k :: 0 <= k < |s| ==> Points(pool, s)[k].addr == pool[s[k]].addr
  {
  }

  lemma WholeIsPartition()
    ensures Partition([Whole(), [], [], [], []])
  {
    assert Total([Whole(), [], [], [], []]) == multiset(Whole());
  }

  lemma {:induction false} WholeIsChain(pool: seq<Entry>, i: nat)
    requires |pool| == POOL_SIZE && i < POOL_SIZE
    requires forall k :: 0 <= k < POOL_SIZE ==> pool[k].next == if k < POOL_SIZE - 1 then k + 1 else NULL
    ensures Chain(pool, i, Whole()[i..])
    decreases POOL_SIZE - i
  {
    assert Whole()[i..][1..] == Whole()[i + 1..];
    if i + 1 < POOL_SIZE { WholeIsChain(pool, i + 1); }
  }
}
