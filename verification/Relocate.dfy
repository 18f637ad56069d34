/** The relocation of 3DSX programs in src/loader.c. The image is seen as words; its segments follow one another. */
module Relocate {
  import opened Words

  /** Base address and page-aligned segment sizes, in bytes. */
  datatype Layout = Layout(base: u32, code: u32, rodata: u32, data: u32) {
    function SegAddr(i: nat): u32
      requires i < 3
    {
      if i == 0 then base else if i == 1 then Wrap(base + code) else Wrap(Wrap(base + code) + rodata)
    }

    function Size(i: nat): u32
      requires i < 3
    {
      if i == 0 then code else if i == 1 then rodata else data
    }

    /** The word at which a segment starts in the image. */
    function Start(i: nat): nat
      requires i < 3
    {
      if i == 0 then 0 else if i == 1 then code / 4 else code / 4 + rodata / 4
    }

    function End(i: nat): nat
      requires i < 3
    {
      Start(i) + Size(i) / 4
    }
  }

  /** An address of the program's own, segment by segment. */
  function TranslateAddr(l: Layout, addr: u32): u32 {
    var offset0, offset1 := l.code, Wrap(l.code + l.rodata);
    if addr < offset0 then Wrap(l.SegAddr(0) + addr)
    else if addr < offset1 then Wrap(l.SegAddr(1) + addr - offset0)
    else Wrap(l.SegAddr(2) + addr - offset1)
  }

  /** Since the segments are contiguous, all addresses move by the base. */
  lemma TranslationIsUniform(l: Layout, addr: u32)
    ensures TranslateAddr(l, addr) == Wrap(l.base + addr)
  {
    hide Wrap;
    WrapAdd(addr - l.code, l.base + l.code);
    WrapAdd(l.rodata, l.base + l.code);
    WrapTwice(l.base + l.code + l.rodata, addr, l.code + l.rodata);
  }

  /** The wrapped ends of both terms cancel. */
  lemma WrapTwice(x: int, addr: int, y: int)
    ensures Wrap(Wrap(x) + addr - Wrap(y)) == Wrap(x + addr - y)
  {
    WrapAdd(addr - Wrap(y), x);
    WrapModulo(x + addr - y, y / TWO32);
  }

  // ---- Relocation tables -------------------------------------------------

  /** Skip some words, then patch some. */
  datatype Reloc = Reloc(skip: nat, patch: nat)

  /** The patched value of the word at position x: absolute, or relative to the position in the image. */
  function Patched(l: Layout, relative: bool, x: nat, w: u32): u32 {
    if relative then Wrap(TranslateAddr(l, w) - 4 * x) else TranslateAddr(l, w)
  }

  /** The words of one entry, as far as the segment reaches; also where the next entry starts. */
  function PatchRun(image: seq<u32>, from: nat, count: nat, end: nat, l: Layout, relative: bool): (r: (seq<u32>, nat))
    requires end <= |image|
    ensures |r.0| == |image| && r.1 >= from
    decreases count
  {
    if count == 0 || from >= end then (image, from)
    else PatchRun(image[from := Patched(l, relative, from, image[from])], from + 1, count - 1, end, l, relative)
  }

  /** A table, entry after entry. */
  function Pass(image: seq<u32>, pos: nat, relocs: seq<Reloc>, end: nat, l: Layout, relative: bool)
    : (r: (seq<u32>, nat))
    requires end <= |image|
    ensures |r.0| == |image| && r.1 >= pos
    decreases |relocs|
  {
    if relocs == [] || pos >= end then (image, pos)
    else
      var (next, after) := PatchRun(image, pos + relocs[0].skip, relocs[0].patch, end, l, relative);
      Pass(next, after, relocs[1..], end, l, relative)
  }

  /** Does a table patch the word at position x? */
  predicate Hits(relocs: seq<Reloc>, pos: nat, end: nat, x: nat)
    decreases |relocs|
  {
    && relocs != [] && pos < end
    && var from := pos + relocs[0].skip;
       var to := if from + relocs[0].patch < end then from + relocs[0].patch else if from < end then end else from;
       from <= x < to || Hits(relocs[1..], to, end, x)
  }

  /** Only words of the rest of the segment are patched, ... */
  lemma {:induction false} HitsAhead(relocs: seq<Reloc>, pos: nat, end: nat, x: nat)
    requires Hits(relocs, pos, end, x)
    ensures pos <= x < end
    decreases |relocs|
  {
    var from := pos + relocs[0].skip;
    var to := if from + relocs[0].patch < end then from + relocs[0].patch else if from < end then end else from;
    if Hits(relocs[1..], to, end, x) { HitsAhead(relocs[1..], to, end, x); }
  }

  /** A table as one mark for each word: those that are skipped have none. */
  function Marks(relocs: seq<Reloc>): seq<bool> {
    if relocs == [] then []
    else seq(relocs[0].skip, _ => false) + seq(relocs[0].patch, _ => true) + Marks(relocs[1..])
  }

  /** Exactly the marked words of the segment are hit. */
  lemma {:induction false} HitsMarked(relocs: seq<Reloc>, pos: nat, end: nat, x: nat)
    requires pos <= x < end
    ensures Hits(relocs, pos, end, x) <==> x - pos < |Marks(relocs)| && Marks(relocs)[x - pos]
    decreases |relocs|
  {
    if relocs != [] {
      var from := pos + relocs[0].skip;
      var after := from + relocs[0].patch;
      if x < from {
        var to := if after < end then after else if from < end then end else from;
        if Hits(relocs[1..], to, end, x) { HitsAhead(relocs[1..], to, end, x); }
      } else if x >= after {
        HitsMarked(relocs[1..], after, end, x);
      }
    }
  }

  lemma {:induction false} PatchRunWord(image: seq<u32>, from: nat, count: nat, end: nat, l: Layout, relative: bool,
                                        x: nat)
    requires end <= |image| && x < |image|
    ensures var to := if from + count < end then from + count else if from < end then end else from;
      var (next, after) := PatchRun(image, from, count, end, l, relative);
      after == to && next[x] == if from <= x < to then Patched(l, relative, x, image[x]) else image[x]
    decreases count
  {
    hide Patched;
    if count > 0 && from < end {
      PatchRunWord(image[from := Patched(l, relative, from, image[from])], from + 1, count - 1, end, l, relative, x);
    }
  }

  /** ... each of them once, from its original value; every other word of the image is unchanged. */
  lemma {:induction false} PassWord(image: seq<u32>, pos: nat, relocs: seq<Reloc>, end: nat, l: Layout, relative: bool,
                                    x: nat)
    requires end <= |image| && x < |image|
    ensures Pass(image, pos, relocs, end, l, relative).0[x]
      == if Hits(relocs, pos, end, x) then Patched(l, relative, x, image[x]) else image[x]
    decreases |relocs|
  {
    hide Patched;
    if relocs != [] && pos < end {
      var (next, after) := PatchRun(image, pos + relocs[0].skip, relocs[0].patch, end, l, relative);
      PatchRunWord(image, pos + relocs[0].skip, relocs[0].patch, end, l, relative, x);
      PassWord(next, after, relocs[1..], end, l, relative, x);
      if Hits(relocs[1..], after, end, x) { HitsAhead(relocs[1..], after, end, x); }
    }
  }

  /** Reading a table in two pieces makes no difference. */
  lemma {:induction false} PassSplit(image: seq<u32>, pos: nat, a: seq<Reloc>, b: seq<Reloc>, end: nat, l: Layout,
                                     relative: bool)
    requires end <= |image|
    ensures var (next, after) := Pass(image, pos, a, end, l, relative);
      Pass(image, pos, a + b, end, l, relative) == Pass(next, after, b, end, l, relative)
    decreases |a|
  {
    hide PatchRun;
    if a == [] {
      assert a + b == b;
    } else if pos < end {
      assert (a + b)[0] == a[0] && (a + b)[1..] == a[1..] + b;
      var (next, after) := PatchRun(image, pos + a[0].skip, a[0].patch, end, l, relative);
      PassSplit(next, after, a[1..], b, end, l, relative);
    }
  }

  // ---- The loader's loops ------------------------------------------------

  const RELOCBUFSIZE := 512

  method PatchWords(image: array<u32>, from: nat, count: nat, end: nat, l: Layout, relative: bool) returns (pos: nat)
    requires end <= image.Length
    modifies image
    ensures (image[..], pos) == PatchRun(old(image[..]), from, count, end, l, relative)
  {
    hide Patched;
    pos := from;
    var m := 0;
    while m < count && pos < end
      invariant 0 <= m <= count
      invariant PatchRun(image[..], pos, count - m, end, l, relative)
        == PatchRun(old(image[..]), from, count, end, l, relative)
    {
      image[pos] := Patched(l, relative, pos, image[pos]);
      pos := pos + 1;
      m := m + 1;
    }
  }

  method PatchChunk(image: array<u32>, chunk: seq<Reloc>, start: nat, end: nat, l: Layout, relative: bool)
    returns (pos: nat)
    requires end <= image.Length
    modifies image
    ensures (image[..], pos) == Pass(old(image[..]), start, chunk, end, l, relative)
  {
    hide PatchRun;
    pos := start;
    var k := 0;
    while k < |chunk| && pos < end
      invariant 0 <= k <= |chunk|
      invariant Pass(image[..], pos, chunk[k..], end, l, relative)
        == Pass(old(image[..]), start, chunk, end, l, relative)
    {
      assert chunk[k..][0] == chunk[k] && chunk[k..][1..] == chunk[k + 1..];
      pos := PatchWords(image, pos + chunk[k].skip, chunk[k].patch, end, l, relative);
      k := k + 1;
    }
  }

  /** A table is read in chunks; the effect is that of one pass over the whole of it. */
  method RelocateTable(image: array<u32>, relocs: seq<Reloc>, l: Layout, i: nat, relative: bool)
    requires i < 3 && l.End(i) <= image.Length
    modifies image
    ensures image[..] == Pass(old(image[..]), l.Start(i), relocs, l.End(i), l, relative).0
  {
    hide Pass;
    ghost var before, start, end := image[..], l.Start(i), l.End(i);
    var pos, at := l.Start(i), 0;
    NothingPassed(before, pos, end, l, relative);
    while at < |relocs|
      invariant 0 <= at <= |relocs|
      invariant (image[..], pos) == Pass(before, start, relocs[..at], end, l, relative)
    {
      var toDo := if |relocs| - at > RELOCBUFSIZE then RELOCBUFSIZE else |relocs| - at;
      PassSplit(before, start, relocs[..at], relocs[at..at + toDo], end, l, relative);
      assert relocs[..at] + relocs[at..at + toDo] == relocs[..at + toDo];
      pos := PatchChunk(image, relocs[at..at + toDo], pos, l.End(i), l, relative);
      at := at + toDo;
    }
    assert relocs[..at] == relocs;
  }

  lemma NothingPassed(image: seq<u32>, pos: nat, end: nat, l: Layout, relative: bool)
    requires end <= |image|
    ensures Pass(image, pos, [], end, l, relative) == (image, pos)
  {
  }

  /** What the first n tables of a segment make of a word: the first is absolute, the second relative, others are
      ignored. */
  function SegmentWord(l: Layout, tables: seq<seq<Reloc>>, n: nat, i: nat, x: nat, w: u32): u32
    requires i < 3 && n <= |tables|
  {
    if n == 0 then w
    else
      var v := SegmentWord(l, tables, n - 1, i, x, w);
      if n <= 2 && Hits(tables[n - 1], l.Start(i), l.End(i), x) then Patched(l, n == 2, x, v) else v
  }

  method RelocateSegment(image: array<u32>, tables: seq<seq<Reloc>>, l: Layout, i: nat)
    requires i < 3 && l.End(i) <= image.Length
    modifies image
    ensures forall x :: 0 <= x < image.Length ==> image[x] == SegmentWord(l, tables, |tables|, i, x, old(image[x]))
  {
    hide Pass, Hits, Patched;
    var j := 0;
    while j < |tables|
      invariant 0 <= j <= |tables|
      invariant forall x :: 0 <= x < image.Length ==> image[x] == SegmentWord(l, tables, j, i, x, old(image[x]))
    {
      if j < 2 {
        ghost var before := image[..];
        RelocateTable(image, tables[j], l, i, j == 1);
        forall x | 0 <= x < image.Length
          ensures image[x] == SegmentWord(l, tables, j + 1, i, x, old(image[x]))
        {
          PassWord(before, l.Start(i), tables[j], l.End(i), l, j == 1, x);
          assert image[x] == image[..][x];
        }
      }
      j := j + 1;
    }
  }

  /** What relocating the first k segments makes of a word. */
  function Relocated(l: Layout, tables: seq<seq<seq<Reloc>>>, k: nat, x: nat, w: u32): u32
    requires k <= 3 == |tables|
  {
    if k == 0 then w else SegmentWord(l, tables[k - 1], |tables[k - 1]|, k - 1, x, Relocated(l, tables, k - 1, x, w))
  }

  /** The relocation of a whole program. */
  method Relocate(image: array<u32>, tables: seq<seq<seq<Reloc>>>, l: Layout)
    requires |tables| == 3 && l.End(2) == image.Length
    modifies image
    ensures forall x :: 0 <= x < image.Length ==> image[x] == Relocated(l, tables, 3, x, old(image[x]))
  {
    hide SegmentWord;
    for i := 0 to 3
      invariant forall x :: 0 <= x < image.Length ==> image[x] == Relocated(l, tables, i, x, old(image[x]))
    {
      RelocateSegment(image, tables[i], l, i);
    }
  }

  /** The tables of one segment leave the words of the others alone. */
  lemma {:induction false} OwnSegmentOnly(l: Layout, tables: seq<seq<Reloc>>, n: nat, i: nat, x: nat, w: u32)
    requires i < 3 && n <= |tables| && !(l.Start(i) <= x < l.End(i))
    ensures SegmentWord(l, tables, n, i, x, w) == w
  {
    if n > 0 {
      OwnSegmentOnly(l, tables, n - 1, i, x, w);
      if Hits(tables[n - 1], l.Start(i), l.End(i), x) { HitsAhead(tables[n - 1], l.Start(i), l.End(i), x); }
    }
  }

  /** Is there a table n of the segment, and does it hit the word at position x? */
  predicate HitBy(l: Layout, tables: seq<seq<Reloc>>, n: nat, i: nat, x: nat)
    requires i < 3
  {
    n < |tables| && Hits(tables[n], l.Start(i), l.End(i), x)
  }

  /** A word of segment i is relocated by the tables of that segment, however many there are: moved by the base if there
      is an absolute table and it hits the word, then moved by the base and made relative to its place in the image if
      there is a relative table and it hits the word; tables after these two have no effect. */
  lemma RelocatedWord(l: Layout, tables: seq<seq<seq<Reloc>>>, i: nat, x: nat, w: u32)
    requires |tables| == 3 && i < 3 && l.Start(i) <= x < l.End(i)
    ensures var v := if HitBy(l, tables[i], 0, i, x) then Wrap(l.base + w) else w;
      Relocated(l, tables, 3, x, w) == if HitBy(l, tables[i], 1, i, x) then Wrap(Wrap(l.base + v) - 4 * x) else v
  {
    hide TranslateAddr, Hits, Wrap;
    OtherSegments(l, tables, i, x, w);
    var n := |tables[i]|;
    LaterIgnored(l, tables[i], n, i, x, w);
    if n >= 1 {
      SegmentStep(l, tables[i], 0, i, x, w);
      TranslationIsUniform(l, w);
    }
    if n >= 2 {
      SegmentStep(l, tables[i], 1, i, x, w);
      TranslationIsUniform(l, SegmentWord(l, tables[i], 1, i, x, w));
    }
  }

  /** Only the first two tables count. */
  lemma {:induction false} LaterIgnored(l: Layout, tables: seq<seq<Reloc>>, n: nat, i: nat, x: nat, w: u32)
    requires i < 3 && n <= |tables|
    ensures SegmentWord(l, tables, n, i, x, w) == SegmentWord(l, tables, if n < 2 then n else 2, i, x, w)
  {
    hide Hits;
    if n > 2 { LaterIgnored(l, tables, n - 1, i, x, w); }
  }

  lemma SegmentStep(l: Layout, tables: seq<seq<Reloc>>, n: nat, i: nat, x: nat, w: u32)
    requires i < 3 && n < |tables|
    ensures var v := SegmentWord(l, tables, n, i, x, w);
      && SegmentWord(l, tables, 0, i, x, w) == w
      && SegmentWord(l, tables, n + 1, i, x, w)
           == if n < 2 && Hits(tables[n], l.Start(i), l.End(i), x) then Patched(l, n == 1, x, v) else v
  {
  }

  lemma OtherSegments(l: Layout, tables: seq<seq<seq<Reloc>>>, i: nat, x: nat, w: u32)
    requires |tables| == 3 && i < 3 && l.Start(i) <= x < l.End(i)
    ensures Relocated(l, tables, 3, x, w) == SegmentWord(l, tables[i], |tables[i]|, i, x, w)
  {
    hide SegmentWord;
    var a := Relocated(l, tables, 1, x, w);
    var b := Relocated(l, tables, 2, x, w);
    assert Relocated(l, tables, 0, x, w) == w;
    assert a == SegmentWord(l, tables[0], |tables[0]|, 0, x, Relocated(l, tables, 0, x, w));
    assert b == SegmentWord(l, tables[1], |tables[1]|, 1, x, a);
    if i != 0 { OwnSegmentOnly(l, tables[0], |tables[0]|, 0, x, w); }
    if i != 1 { OwnSegmentOnly(l, tables[1], |tables[1]|, 1, x, a); }
    if i != 2 { OwnSegmentOnly(l, tables[2], |tables[2]|, 2, x, b); }
  }
}
