/** The segmented memory of src/mem.c, and the proof that it behaves as one flat map from addresses to bytes. */
module Memory {
  import opened Words
  import opened Shifter

  const MAX_MAPPINGS := 16

  // ---- Little-endian words -----------------------------------------------

  /** `(u8) w` */
  function Byte(w: nat): u8 { w % 256 }

  function Bytes(w: nat, n: nat): (s: seq<u8>)
    ensures |s| == n
    decreases n
  {
    if n == 0 then [] else [Byte(w)] + Bytes(w / 256, n - 1)
  }

  function Little(s: seq<u8>): nat {
    if s == [] then 0 else s[0] + 256 * Little(s[1..])
  }

  /** A word is recovered from its n bytes up to the bits that do not fit in them. */
  lemma {:induction false} LittleOfBytes(w: nat, n: nat)
    ensures Little(Bytes(w, n)) == w % Pow2(8 * n)
    decreases n
  {
    if n > 0 {
      LittleOfBytes(w / 256, n - 1);
      assert Bytes(w, n)[1..] == Bytes(w / 256, n - 1);
      Pow2At32();
      Pow2Sum(8, 8 * (n - 1));
      LowPart(w, Pow2(8 * (n - 1)));
    }
  }

  lemma LowPart(w: nat, p: nat)
    requires p >= 1
    ensures w % 256 + 256 * ((w / 256) % p) == w % (256 * p)
  {
    var q, r := w / 256 / p, (w / 256) % p;
    Regroup(256, p, q, r);
    SmallRemainder(256, p, r, w % 256);
    DivUnique(w, 256 * p, q, w % 256 + 256 * r);
  }

  lemma FourBytes(w: u32)
    ensures Bytes(w, 4) == [Byte(w), Byte(w / 256), Byte(w / 0x1_0000), Byte(w / 0x100_0000)]
  {
    DivDiv(w, 256, 256);
    DivDiv(w, 0x1_0000, 256);
    BytesOf(w, w / 256, w / 0x1_0000, w / 0x100_0000);
  }

  lemma BytesOf(w: nat, a: nat, b: nat, c: nat)
    requires a == w / 256 && b == a / 256 && c == b / 256
    ensures Bytes(w, 4) == [Byte(w), Byte(a), Byte(b), Byte(c)]
  {
    hide Byte;
    assert Bytes(b, 2) == [Byte(b), Byte(c)];
    assert Bytes(a, 3) == [Byte(a)] + Bytes(b, 2);
  }

  function Word(a: int, b: int, c: int, d: int): int { a + 256 * b + 0x1_0000 * c + 0x100_0000 * d }

  lemma FourLittle(s: seq<u8>)
    requires |s| == 4
    ensures Little(s) == Word(s[0], s[1], s[2], s[3])
  {
    var a: int, b: int, c: int, d: int := s[0], s[1], s[2], s[3];
    assert s[1..][1..][1..][1..] == [];
    assert Little(s[1..][1..]) == c + 256 * Little(s[1..][1..][1..]);
    assert Little(s[1..]) == b + 256 * Little(s[1..][1..]);
  }

  lemma WordBound(a: u8, b: u8, c: u8, d: u8)
    ensures 0 <= Word(a, b, c, d) < TWO32
  {
  }

  function LittleWord(s: seq<u8>): (w: u32)
    requires |s| == 4
    ensures w == Little(s)
  {
    FourLittle(s);
    WordBound(s[0], s[1], s[2], s[3]);
    Little(s)
  }

  lemma LittleWordOfBytes(w: u32)
    ensures LittleWord(Bytes(w, 4)) == w
  {
    LittleOfBytes(w, 4);
    Pow2At32();
  }

  /** Bytes are recovered from the number they make. */
  lemma {:induction false} BytesOfLittle(s: seq<u8>)
    ensures Bytes(Little(s), |s|) == s
  {
    if s != [] {
      BytesOfLittle(s[1..]);
      DivUnique(Little(s), 256, Little(s[1..]), s[0]);
    }
  }

  lemma OneLittle(s: seq<u8>)
    requires |s| == 1
    ensures Little(s) == s[0]
  {
    assert s[1..] == [];
  }

  lemma TwoLittle(s: seq<u8>)
    requires |s| == 2
    ensures Little(s) == s[0] as int + 256 * (s[1] as int)
  {
    assert Little(s[1..]) == s[1] as int + 256 * Little(s[1..][1..]);
  }

  // ---- The flat memory ---------------------------------------------------

  /** The byte at every mapped address, and the base of the mapping that the address belongs to. */
  datatype Flat = Flat(bytes: map<int, u8>, home: map<int, int>)

  predicate Mapped(f: Flat, addr: int, n: nat) {
    forall a :: addr <= a < addr + n ==> a in f.bytes
  }

  /** All n bytes belong to one mapping. */
  predicate Holds(f: Flat, addr: int, n: nat) {
    && Mapped(f, addr, n)
    && forall a :: addr <= a < addr + n ==> a in f.home && addr in f.home && f.home[a] == f.home[addr]
  }

  function Slice(f: Flat, addr: int, n: nat): (s: seq<u8>)
    requires Mapped(f, addr, n)
    ensures |s| == n && forall k :: 0 <= k < n ==> s[k] == f.bytes[addr + k]
  {
    seq(n, k requires 0 <= k < n => f.bytes[addr + k])
  }

  predicate InRange(a: int, addr: int, n: nat) { addr <= a < addr + n }

  function Range(addr: int, n: nat): set<int> { set a: int | addr <= a < addr + n && InRange(a, addr, n) }

  function Blit(f: Flat, addr: int, data: seq<u8>): (g: Flat)
    ensures forall a :: a in g.bytes <==> a in f.bytes || addr <= a < addr + |data|
    ensures forall a :: addr <= a < addr + |data| ==> g.bytes[a] == data[a - addr]
    ensures forall a :: a in f.bytes && !(addr <= a < addr + |data|) ==> g.bytes[a] == f.bytes[a]
    ensures g.home == f.home
  {
    f.(bytes := map a | a in f.bytes.Keys + Range(addr, |data|)
                  :: if addr <= a < addr + |data| then data[a - addr] else f.bytes[a])
  }

  lemma BlitJoin(f: Flat, addr: int, x: seq<u8>, y: seq<u8>)
    ensures Blit(Blit(f, addr, x), addr + |x|, y) == Blit(f, addr, x + y)
  {
    var g, h := Blit(Blit(f, addr, x), addr + |x|, y), Blit(f, addr, x + y);
    assert g.bytes == h.bytes;
  }

  /** A buffer with data copied into it. */
  function Splice(b: seq<u8>, off: nat, data: seq<u8>): (c: seq<u8>)
    requires off + |data| <= |b|
    ensures |c| == |b|
  {
    b[..off] + data + b[off + |data|..]
  }

  /** What was written is read back, and other bytes are not affected. */
  lemma SliceOfBlit(f: Flat, addr: int, data: seq<u8>)
    ensures Mapped(Blit(f, addr, data), addr, |data|) && Slice(Blit(f, addr, data), addr, |data|) == data
  {
  }

  // ---- What each access does to the flat memory --------------------------

  /** A load: its bytes must lie in one mapping, otherwise it yields zero. */
  function Loaded(f: Flat, addr: int, n: nat): nat {
    if Holds(f, addr, n) then Little(Slice(f, addr, n)) else 0
  }

  function LoadedHalf(f: Flat, addr: int): (h: nat)
    ensures h == Loaded(f, addr, 2) && h < 0x1_0000
  {
    if Holds(f, addr, 2) then TwoLittle(Slice(f, addr, 2)); Loaded(f, addr, 2) else 0
  }

  /** Moves the bytes of a word up by k places, the topmost ones re-entering at the bottom. */
  function RotateUp(s: seq<u8>, k: nat): seq<u8>
    requires |s| == 4 && k < 4
  {
    s[4 - k..] + s[..4 - k]
  }

  /** A word load rotates the bytes of an unaligned word. */
  function LoadedWord(f: Flat, addr: int): u32 {
    if Holds(f, addr, 4) then LittleWord(RotateUp(Slice(f, addr, 4), addr % 4)) else 0
  }

  /** What a word load makes of the bytes a, b, c, d, lowest first, of the word at an address with remainder k. */
  function Rearranged(k: nat, a: u8, b: u8, c: u8, d: u8): u32
    requires k < 4
  {
    WordBound(a, b, c, d);
    WordBound(d, a, b, c);
    WordBound(c, d, a, b);
    WordBound(b, c, d, a);
    if k == 0 then Word(a, b, c, d) else if k == 1 then Word(d, a, b, c)
    else if k == 2 then Word(c, d, a, b) else Word(b, c, d, a)
  }

  lemma RearrangedMeans(f: Flat, addr: u32)
    requires Holds(f, addr, 4)
    ensures LoadedWord(f, addr)
      == Rearranged(addr % 4, f.bytes[addr], f.bytes[addr + 1], f.bytes[addr + 2], f.bytes[addr + 3])
  {
    hide Word, Little;
    var s, k := Slice(f, addr, 4), addr % 4;
    FourLittle(RotateUp(s, k));
    if k == 0 {
      assert RotateUp(s, k) == [s[0], s[1], s[2], s[3]];
    } else if k == 1 {
      assert RotateUp(s, k) == [s[3], s[0], s[1], s[2]];
    } else if k == 2 {
      assert RotateUp(s, k) == [s[2], s[3], s[0], s[1]];
    } else {
      assert RotateUp(s, k) == [s[1], s[2], s[3], s[0]];
    }
  }

  lemma NothingLoaded(f: Flat, addr: u32)
    requires !Holds(f, addr, 4)
    ensures LoadedWord(f, addr) == 0
  {
  }

  /** A store changes nothing unless its bytes lie in one mapping. */
  function Stored(f: Flat, addr: int, data: seq<u8>): Flat {
    if Holds(f, addr, |data|) then Blit(f, addr, data) else f
  }

  /** A new mapping of zeros. */
  function Extended(f: Flat, base: int, size: nat): Flat {
    Flat(map a | a in f.bytes.Keys + Range(base, size) :: if base <= a < base + size then 0 else f.bytes[a],
         map a | a in f.home.Keys + Range(base, size) :: if base <= a < base + size then base else f.home[a])
  }

  /** A memory access of the program; `Frame` is the reordering between two frames. */
  datatype Access = LoadByte(addr: u32) | LoadHalf(addr: u32) | LoadWord(addr: u32)
                  | StoreByte(addr: u32, b: u8) | StoreHalf(addr: u32, h: u32) | StoreWord(addr: u32, w: u32) | Frame

  predicate InBounds(op: Access) {
    match op
    case LoadByte(addr) => addr + 1 < TWO32
    case LoadHalf(addr) => addr + 2 < TWO32
    case LoadWord(addr) => addr + 4 < TWO32
    case StoreByte(addr, _) => addr + 1 < TWO32
    case StoreHalf(addr, h) => addr + 2 < TWO32 && h < 0x1_0000
    case StoreWord(addr, _) => addr + 4 < TWO32
    case Frame => true
  }

  /** What an access answers: the value loaded, or for a store whether it failed (which a word store never reports). */
  function Answer(f: Flat, op: Access): int {
    match op
    case LoadByte(addr) => Loaded(f, addr, 1)
    case LoadHalf(addr) => Loaded(f, addr, 2)
    case LoadWord(addr) => LoadedWord(f, addr)
    case StoreByte(addr, _) => if Holds(f, addr, 1) then 0 else 1
    case StoreHalf(addr, _) => if Holds(f, addr, 2) then 0 else 1
    case StoreWord(_, _) => 0
    case Frame => 0
  }

  function Effect(f: Flat, op: Access): Flat {
    match op
    case StoreByte(addr, b) => Stored(f, addr, [b])
    case StoreHalf(addr, h) => Stored(f, addr, Bytes(h, 2))
    case StoreWord(addr, w) => Stored(f, addr, Bytes(w, 4))
    case _ => f
  }

  /** The answers of a flat memory to a sequence of accesses, and the memory they leave behind. */
  function Outcomes(f: Flat, ops: seq<Access>): (seq<int>, Flat) {
    if ops == [] then ([], f)
    else
      var last := |ops| - 1;
      var (answers, g) := Outcomes(f, ops[..last]);
      (answers + [Answer(g, ops[last])], Effect(g, ops[last]))
  }

  /** A store is read back by a load of the same width at the same address, and ... */
  lemma ReadBack(f: Flat, addr: int, w: nat, n: nat)
    requires n >= 1 && Holds(f, addr, n)
    ensures Loaded(Stored(f, addr, Bytes(w, n)), addr, n) == w % Pow2(8 * n)
  {
    LittleOfBytes(w, n);
    SliceOfBlit(f, addr, Bytes(w, n));
  }

  /** ... does not affect a load from elsewhere. */
  lemma ReadElsewhere(f: Flat, addr: int, data: seq<u8>, other: int, n: nat)
    requires other + n <= addr || addr + |data| <= other
    ensures Loaded(Stored(f, addr, data), other, n) == Loaded(f, other, n)
    ensures n == 4 ==> LoadedWord(Stored(f, addr, data), other) == LoadedWord(f, other)
  {
    var g := Stored(f, addr, data);
    assert Holds(g, other, n) <==> Holds(f, other, n);
    if Holds(f, other, n) { assert Slice(g, other, n) == Slice(f, other, n); }
  }

  /** ARMul_Align: rotates an unaligned word to the right. */
  function Align(addr: u32, data: u32): u32
    requires addr % 4 != 0
  {
    var n := 8 * (addr % 4);
    BitOr(Shr(data, n), Shl(data, 32 - n))
  }

  lemma AlignMeans(addr: u32, data: u32)
    requires addr % 4 != 0
    ensures Align(addr, data) == data / Pow2(8 * (addr % 4)) + (data % Pow2(8 * (addr % 4))) * Pow2(32 - 8 * (addr % 4))
  {
    hide BitOr, Shl, ShiftBy;
    var n := 8 * (addr % 4);
    OrCommutes(Shl(data, 32 - n), Shr(data, n));
    RotateExpression(data, false, n);
    RorClosed(data, false, n);
  }

  lemma ByteCounts()
    ensures Pow2(8) == 256 && Pow2(16) == 0x1_0000 && Pow2(24) == 0x100_0000
  {
    Pow2At32();
    Pow2Sum(8, 8);
    Pow2Sum(16, 8);
  }

  lemma RotateWord(a: u8, b: u8, c: u8, d: u8)
    ensures var x := Word(d, a, b, c); 0 <= x < TWO32 && x / 256 + (x % 256) * 0x100_0000 == Word(a, b, c, d)
    ensures var x := Word(c, d, a, b); 0 <= x < TWO32 && x / 0x1_0000 + (x % 0x1_0000) * 0x1_0000 == Word(a, b, c, d)
    ensures var x := Word(b, c, d, a); 0 <= x < TWO32 && x / 0x100_0000 + (x % 0x100_0000) * 256 == Word(a, b, c, d)
  {
    DivUnique(Word(d, a, b, c), 256, a as int + 256 * (b as int) + 0x1_0000 * (c as int), d);
    DivUnique(Word(c, d, a, b), 0x1_0000, a as int + 256 * (b as int), c as int + 256 * (d as int));
    DivUnique(Word(b, c, d, a), 0x100_0000, a, b as int + 256 * (c as int) + 0x1_0000 * (d as int));
  }

  /** The rotation of unaligned word loads is undone by Align, as the single-word load LDR applies it. */
  lemma AlignUndoesRotation(f: Flat, addr: u32)
    requires Holds(f, addr, 4)
    ensures (if addr % 4 != 0 then Align(addr, LoadedWord(f, addr)) else LoadedWord(f, addr)) == Loaded(f, addr, 4)
  {
    hide Align, Little, Word;
    var s := Slice(f, addr, 4);
    var t := RotateUp(s, addr % 4);
    FourLittle(s);
    FourLittle(t);
    if addr % 4 == 0 {
      assert t == s;
    } else {
      RotateWord(s[0], s[1], s[2], s[3]);
      AlignMeans(addr, Little(t));
      ByteCounts();
    }
  }

  // ---- Mappings ----------------------------------------------------------

  datatype Mapping = Mapping(base: u32, size: u32, phys: array<u8>, accesses: nat)

  predicate Covers(m: Mapping, a: int) { m.base <= a < m.base + m.size }

  predicate Inside(m: Mapping, addr: int, n: nat) { m.base <= addr && addr + n <= m.base + m.size }

  predicate Overlaps(a: Mapping, b: Mapping) {
    var aEnd, bEnd := Wrap(a.base + a.size), Wrap(b.base + b.size);
    (a.base <= b.base && b.base < aEnd) || (a.base < bEnd && bEnd < aEnd)
  }

  predicate Contains(m: Mapping, addr: u32, n: u32) {
    m.base <= addr && Wrap(addr + n) <= Wrap(m.base + m.size)
  }

  predicate Ends(m: Mapping) { m.size > 0 && m.base + m.size < TWO32 }

  /** The overlap test misses exactly a new mapping that starts below an existing one and reaches or passes its end. */
  lemma OverlapsExactly(a: Mapping, b: Mapping)
    requires Ends(a) && Ends(b)
    ensures Overlaps(a, b) <==>
      (exists x :: Covers(a, x) && Covers(b, x)) && !(b.base < a.base && a.base + a.size <= b.base + b.size)
  {
    if a.base <= b.base < a.base + a.size { assert Covers(a, b.base) && Covers(b, b.base); }
    if b.base < a.base < b.base + b.size { assert Covers(a, a.base) && Covers(b, a.base); }
  }

  /** The containment test is right unless the end of the range wraps around to or below the end of the mapping. */
  lemma ContainsExactly(m: Mapping, addr: u32, n: u32)
    requires Ends(m)
    ensures (Contains(m, addr, n) <==> Inside(m, addr, n))
      <==> !(m.base <= addr && addr + n >= TWO32 && addr + n - TWO32 <= m.base + m.size)
  {
  }

  /** A mapping that encloses another one, and is not seen to overlap it. */
  lemma EnclosingIsMissed(block: array<u8>)
    ensures var a, b := Mapping(0x1000, 0x1000, block, 0), Mapping(0, 0x4000, block, 0);
      Ends(a) && Ends(b) && Covers(a, 0x1000) && Covers(b, 0x1000) && !Overlaps(a, b)
  {
  }

  /** At the end of the address space the test accepts every mapping below that is not tiny, although none holds the
      range. */
  lemma EndIsMisjudged(m: Mapping, addr: u32, n: u32)
    requires Ends(m) && 1 <= n <= 4 && addr + n >= TWO32 && m.base <= addr && m.base + m.size >= 4
    ensures Contains(m, addr, n) && !Inside(m, addr, n)
  {
  }

  /** The mappings are proper ranges with different bases and different blocks. */
  ghost predicate Distinct(t: seq<Mapping>, blocks: set<array<u8>>) {
    && |t| <= MAX_MAPPINGS
    && (forall m :: m in t ==> Ends(m) && m.phys in blocks)
    && (forall i, j :: 0 <= i < j < |t| ==> t[i].base != t[j].base && t[i].phys != t[j].phys)
  }

  /** Every mapped address lies in some mapping. */
  ghost predicate Covered(t: seq<Mapping>, f: Flat) {
    f.home.Keys == f.bytes.Keys && forall a :: a in f.home ==> exists m :: m in t && Covers(m, a)
  }

  /** The mapping's addresses are in the flat memory with the bytes of its block. */
  ghost predicate Placed(m: Mapping, block: seq<u8>, f: Flat) {
    && |block| == m.size
    && forall a :: Covers(m, a) ==>
         a in f.bytes && a in f.home && f.home[a] == m.base && f.bytes[a] == block[a - m.base]
  }

  lemma SameMapping(t: seq<Mapping>, blocks: set<array<u8>>, m: Mapping, n: Mapping)
    requires Distinct(t, blocks) && m in t && n in t
    ensures m.base == n.base || m.phys == n.phys ==> m == n
  {
  }

  lemma HomeOf(m: Mapping, block: seq<u8>, f: Flat, addr: int)
    requires Placed(m, block, f) && Covers(m, addr)
    ensures |block| == m.size && addr in f.home && f.home[addr] == m.base && addr in f.bytes
  {
  }

  /** Updating a byte of a mapping. */
  lemma PlacedAfterPut(m: Mapping, block: seq<u8>, f: Flat, addr: int, b: u8)
    requires Placed(m, block, f) && Covers(m, addr)
    ensures Placed(m, block[addr - m.base := b], Blit(f, addr, [b]))
  {
  }

  lemma PlacedIgnoresAccesses(m: Mapping, block: seq<u8>, f: Flat, n: nat)
    requires Placed(m, block, f)
    ensures Placed(m.(accesses := n), block, f)
  {
    forall a | Covers(m.(accesses := n), a)
      ensures a in f.bytes && a in f.home && f.home[a] == m.base && f.bytes[a] == block[a - m.base]
    {
      assert Covers(m, a);
    }
  }

  /** The other mappings do not notice. */
  lemma PlacedBesidePut(m: Mapping, block: seq<u8>, f: Flat, addr: int, b: u8)
    requires Placed(m, block, f) && addr in f.home && f.home[addr] != m.base
    ensures Placed(m, block, Blit(f, addr, [b]))
  {
  }

  lemma CoveredAfterPut(t: seq<Mapping>, f: Flat, addr: int, b: u8)
    requires Covered(t, f) && addr in f.home
    ensures Covered(t, Blit(f, addr, [b]))
  {
    assert Blit(f, addr, [b]).bytes.Keys == f.bytes.Keys;
  }

  /** t and u list the same ranges and blocks, in some order: one is the other with two entries exchanged or
      an access count changed. */
  lemma CoveredLikewise(t: seq<Mapping>, u: seq<Mapping>, f: Flat)
    requires Covered(t, f)
    requires forall m :: m in t ==> exists n :: n in u && n.base == m.base && n.size == m.size
    ensures Covered(u, f)
  {
    forall a | a in f.home
      ensures exists n :: n in u && Covers(n, a)
    {
      var m :| m in t && Covers(m, a);
      var n :| n in u && n.base == m.base && n.size == m.size;
      assert Covers(n, a);
    }
  }

  predicate Clashes(f: Flat, base: int, size: nat) { exists a :: base <= a < base + size && a in f.bytes }

  ghost predicate Apart(t: seq<Mapping>, m: Mapping) { forall n, a :: n in t && Covers(n, a) ==> !Covers(m, a) }

  lemma Compare(t: seq<Mapping>, blocks: set<array<u8>>, n: Mapping, m: Mapping)
    requires Distinct(t, blocks) && n in t && Ends(m) && !(m.base < n.base && n.base + n.size <= m.base + m.size)
    ensures Overlaps(n, m) <==> !Apart([n], m)
  {
    OverlapsExactly(n, m);
  }

  lemma AddedDistinct(t: seq<Mapping>, blocks: set<array<u8>>, m: Mapping)
    requires Distinct(t, blocks) && |t| < MAX_MAPPINGS && Ends(m) && m.phys !in blocks
    requires exists n: Mapping :: Apart(t, n) && n.base == m.base && n.size == m.size
    ensures Distinct(t + [m], blocks + {m.phys})
  {
    forall i | 0 <= i < |t|
      ensures t[i].base != m.base && t[i].phys != m.phys
    {
      var n: Mapping :| Apart(t, n) && n.base == m.base && n.size == m.size;
      assert t[i] in t;
      assert Covers(t[i], t[i].base);
      assert !Covers(n, t[i].base);
    }
  }

  lemma AddedCovered(t: seq<Mapping>, f: Flat, m: Mapping)
    requires Covered(t, f)
    ensures Covered(t + [m], Extended(f, m.base, m.size))
  {
    var g := Extended(f, m.base, m.size);
    assert g.home.Keys == g.bytes.Keys;
    forall a | a in g.home
      ensures exists n :: n in t + [m] && Covers(n, a)
    {
      if a in f.home {
        var n :| n in t && Covers(n, a);
        assert n in t + [m];
      } else {
        assert m in t + [m] && Covers(m, a);
      }
    }
  }

  lemma NewPlaced(m: Mapping, block: seq<u8>, f: Flat)
    requires |block| == m.size && forall k :: 0 <= k < |block| ==> block[k] == 0
    ensures Placed(m, block, Extended(f, m.base, m.size))
  {
  }

  lemma AddedPlaced(t: seq<Mapping>, n: Mapping, block: seq<u8>, f: Flat, m: Mapping)
    requires Placed(n, block, f) && n in t
    requires exists m': Mapping :: Apart(t, m') && m'.base == m.base && m'.size == m.size
    ensures Placed(n, block, Extended(f, m.base, m.size))
  {
    var m': Mapping :| Apart(t, m') && m'.base == m.base && m'.size == m.size;
    forall a | Covers(n, a)
      ensures !(m.base <= a < m.base + m.size)
    {
      assert !Covers(m', a);
    }
  }

  // ---- Sorting -----------------------------------------------------------

  /** The first n access counts are zero. */
  function Uncounted(t: seq<Mapping>, n: nat): seq<Mapping> {
    seq(|t|, k requires 0 <= k < |t| => if k < n then t[k].(accesses := 0) else t[k])
  }

  lemma UncountedStep(t: seq<Mapping>, n: nat)
    requires n < |t|
    ensures Uncounted(t, 0) == t && Uncounted(t, n)[n] == t[n]
    ensures Uncounted(t, n)[n := t[n].(accesses := 0)] == Uncounted(t, n + 1)
  {
  }

  ghost predicate Descending(t: seq<Mapping>) { forall j, k :: 0 <= j < k < |t| ==> t[j].accesses >= t[k].accesses }

  /** The first i mappings are in order, and ahead of the others. */
  ghost predicate SortedUpTo(t: seq<Mapping>, i: nat) {
    forall j, k :: 0 <= j < i && j < k < |t| ==> t[j].accesses >= t[k].accesses
  }

  function Swap(t: seq<Mapping>, i: nat, j: nat): seq<Mapping>
    requires i < |t| && j < |t|
  {
    t[i := t[j]][j := t[i]]
  }

  lemma SelectionStep(t: seq<Mapping>, i: nat, max: nat)
    requires SortedUpTo(t, i) && i <= max < |t| && forall k :: i <= k < |t| ==> t[k].accesses <= t[max].accesses
    ensures SortedUpTo(Swap(t, i, max), i + 1)
  {
  }

  lemma Swapped(t: seq<Mapping>, blocks: set<array<u8>>, f: Flat, i: nat, j: nat)
    requires Distinct(t, blocks) && Covered(t, f) && i < |t| && j < |t|
    ensures var u := Swap(t, i, j);
      Distinct(u, blocks) && Covered(u, f) && multiset(u) == multiset(t) && forall m :: m in u <==> m in t
  {
    var u := Swap(t, i, j);
    SwappedMembers(t, i, j);
    CoveredLikewise(t, u, f);
  }

  lemma SwappedMembers(t: seq<Mapping>, i: nat, j: nat)
    requires i < |t| && j < |t|
    ensures multiset(Swap(t, i, j)) == multiset(t) && forall m :: m in Swap(t, i, j) <==> m in t
  {
    var u := Swap(t, i, j);
    assert multiset(u) == multiset(t);
    assert forall m :: m in u <==> m in multiset(u);
  }

  class Segments {
    const mappings: array<Mapping>
    var numMappings: nat
    ghost var view: Flat
    ghost var blocks: set<array<u8>>

    ghost function Table(): seq<Mapping>
      requires mappings.Length == MAX_MAPPINGS && numMappings <= MAX_MAPPINGS
      reads this, mappings
    {
      mappings[..numMappings]
    }

    ghost predicate Valid()
      reads this, mappings, blocks
    {
      && mappings.Length == MAX_MAPPINGS && numMappings <= MAX_MAPPINGS
      && Distinct(Table(), blocks) && Covered(Table(), view)
      && forall m :: m in Table() ==> Placed(m, m.phys[..], view)
    }

    constructor ()
      ensures Valid() && fresh(mappings) && numMappings == 0 && view == Flat(map[], map[]) && blocks == {}
    {
      var none := new u8[0];
      mappings := new Mapping[MAX_MAPPINGS](_ => Mapping(0, 0, none, 0));
      numMappings := 0;
      view := Flat(map[], map[]);
      blocks := {};
    }

    lemma Bounds()
      requires Valid()
      ensures mappings.Length == MAX_MAPPINGS && numMappings <= MAX_MAPPINGS
    {
    }

    /** The range lies in one mapping exactly when all its addresses have the same home. */
    lemma HomeIsInside(addr: int, n: nat)
      requires Valid() && n >= 1
      ensures Holds(view, addr, n) <==> exists m :: m in Table() && Inside(m, addr, n)
    {
      if Holds(view, addr, n) {
        assert addr in view.bytes;
        var m :| m in Table() && Covers(m, addr);
        var last := addr + n - 1;
        assert last in view.home;
        var m' :| m' in Table() && Covers(m', last);
        SameMapping(Table(), blocks, m, m');
        assert Inside(m, addr, n);
      }
      if m :| m in Table() && Inside(m, addr, n) {
        assert Placed(m, m.phys[..], view);
        forall a | addr <= a < addr + n
          ensures a in view.bytes && a in view.home && view.home[a] == m.base
        {
          assert Covers(m, a);
        }
      }
    }

    /** The linear search of every accessor: the first mapping that contains the range. */
    method Find(addr: u32, n: u32) returns (i: nat)
      requires Valid() && n >= 1 && addr + n < TWO32
      ensures i < numMappings <==> Holds(view, addr, n)
      ensures i <= numMappings && (i < numMappings ==> Inside(mappings[i], addr, n) && mappings[i].phys in blocks)
    {
      i := 0;
      while i < numMappings && !Contains(mappings[i], addr, n)
        invariant 0 <= i <= numMappings
        invariant forall j :: 0 <= j < i ==> !Inside(mappings[j], addr, n)
      {
        assert mappings[i] in Table();
        i := i + 1;
      }
      HomeIsInside(addr, n);
      if i < numMappings { assert mappings[i] in Table(); }
    }

    /** Counts an access. */
    method Touch(i: nat, weight: nat)
      requires Valid() && i < MAX_MAPPINGS
      modifies mappings
      ensures Valid()
      ensures var m := old(mappings[i]);
        mappings[..] == old(mappings[..])[i := m.(accesses := (m.accesses + weight) % TWO64)]
    {
      hide Placed, Distinct, Covered;
      ghost var t := Table();
      var m := mappings[i];
      mappings[i] := m.(accesses := (m.accesses + weight) % TWO64);
      if i < numMappings {
        assert Table() == t[i := mappings[i]];
        Retouched(t, blocks, view, i, mappings[i].accesses);
        assert m in t;
        PlacedIgnoresAccesses(m, m.phys[..], view, mappings[i].accesses);
      } else {
        assert Table() == t;
      }
    }

    /** Stores one byte in mapping i. */
    method Put(i: nat, addr: u32, b: u8)
      requires Valid() && i < numMappings && Covers(mappings[i], addr)
      modifies this`view, mappings[i].phys
      ensures Valid() && view == Blit(old(view), addr, [b])
    {
      hide Distinct, Covered, Placed, Blit;
      ghost var t, f := Table(), view;
      var m := mappings[i];
      ghost var block := m.phys[..];
      assert m in t;
      HomeOf(m, block, f, addr);
      m.phys[addr - m.base] := b;
      view := Blit(f, addr, [b]);
      assert Table() == t;
      CoveredAfterPut(t, f, addr, b);
      forall n | n in t
        ensures Placed(n, n.phys[..], view)
      {
        SameMapping(t, blocks, m, n);
        if n == m {
          assert m.phys[..] == block[addr - m.base := b];
          PlacedAfterPut(m, block, f, addr, b);
        } else {
          assert n.phys[..] == old(n.phys[..]);
          PlacedBesidePut(n, n.phys[..], f, addr, b);
        }
      }
    }

    /** `mappings[i].phys[addr - mappings[i].base]` */
    function Get(i: nat, addr: int): (b: u8)
      requires Valid() && i < numMappings && Covers(mappings[i], addr)
      reads this, mappings, blocks
      ensures addr in view.bytes && b == view.bytes[addr]
    {
      assert mappings[i] in Table();
      mappings[i].phys[addr - mappings[i].base]
    }

    /** Stores bytes in mapping i, lowest address first. */
    method PutBytes(i: nat, addr: u32, data: seq<u8>)
      requires Valid() && i < numMappings && Inside(mappings[i], addr, |data|) && addr + |data| < TWO32
      modifies this`view, mappings[i].phys
      ensures Valid() && view == Blit(old(view), addr, data)
    {
      hide Distinct, Covered, Placed, Blit;
      ghost var f := view;
      BlitNothing(f, addr);
      var k := 0;
      while k < |data|
        invariant 0 <= k <= |data| && Valid() && view == Blit(f, addr, data[..k])
      {
        BlitJoin(f, addr, data[..k], [data[k]]);
        assert data[..k] + [data[k]] == data[..k + 1];
        Put(i, addr + k, data[k]);
        k := k + 1;
      }
      assert data[..k] == data;
    }

    method PutFour(i: nat, addr: u32, a: u8, b: u8, c: u8, d: u8)
      requires Valid() && i < numMappings && Inside(mappings[i], addr, 4) && addr + 4 < TWO32
      modifies this`view, mappings[i].phys
      ensures Valid() && view == Blit(old(view), addr, [a, b, c, d])
    {
      hide Distinct, Covered, Placed, Blit;
      FourBlits(view, addr, a, b, c, d);
      Put(i, addr, a);
      Put(i, addr + 1, b);
      Put(i, addr + 2, c);
      Put(i, addr + 3, d);
    }

    // ---- Accesses --------------------------------------------------------

    method Write8(addr: u32, w: u8) returns (r: int)
      requires Valid() && addr + 1 < TWO32
      modifies this`view, mappings, blocks
      ensures Valid() && view == Stored(old(view), addr, [w]) && r == if Holds(old(view), addr, 1) then 0 else 1
    {
      hide Distinct, Covered, Placed, Blit;
      var i := Find(addr, 1);
      if i == numMappings { return 1; }
      Touch(i, 1);
      Put(i, addr, w);
      r := 0;
    }

    method Read8(addr: u32) returns (w: u8)
      requires Valid() && addr + 1 < TWO32
      modifies mappings
      ensures Valid() && w == Loaded(view, addr, 1)
    {
      hide Distinct, Covered, Placed;
      var i := Find(addr, 1);
      if i == numMappings { return 0; }
      Touch(i, 1);
      w := Get(i, addr);
      OneLittle(Slice(view, addr, 1));
    }

    method Write16(addr: u32, w: u32) returns (r: int)
      requires Valid() && addr + 2 < TWO32 && w < 0x1_0000
      modifies this`view, mappings, blocks
      ensures Valid() && view == Stored(old(view), addr, Bytes(w, 2)) && r == if Holds(old(view), addr, 2) then 0 else 1
    {
      hide Distinct, Covered, Placed, Blit;
      var i := Find(addr, 2);
      if i == numMappings { return 1; }
      Touch(i, 1);
      if addr % 2 == 1 {
        BlitJoin(view, addr, [Byte(w)], [Byte(w / 256)]);
        assert Bytes(w, 2) == [Byte(w)] + [Byte(w / 256)];
        Put(i, addr, Byte(w));
        Put(i, addr + 1, Byte(w / 256));
      } else {
        PutBytes(i, addr, Bytes(w, 2));
      }
      r := 0;
    }

    method Read16(addr: u32) returns (w: u32)
      requires Valid() && addr + 2 < TWO32
      modifies mappings
      ensures Valid() && w == Loaded(view, addr, 2)
    {
      hide Distinct, Covered, Placed;
      var i := Find(addr, 2);
      if i == numMappings { return 0; }
      Touch(i, 1);
      var low, high: int := Get(i, addr), Get(i, addr + 1);
      w := 256 * high + low;
      TwoLittle(Slice(view, addr, 2));
    }

    /** Unlike the narrower stores, a word store reports no failure. */
    method Write32(addr: u32, w: u32) returns (r: int)
      requires Valid() && addr + 4 < TWO32
      modifies this`view, mappings, blocks
      ensures Valid() && view == Stored(old(view), addr, Bytes(w, 4)) && r == 0
    {
      hide Distinct, Covered, Placed, Blit;
      var i := Find(addr, 4);
      if i == numMappings { return 0; }
      Touch(i, 1);
      if addr % 4 != 0 {
        FourBytes(w);
        PutFour(i, addr, Byte(w), Byte(w / 256), Byte(w / 0x1_0000), Byte(w / 0x100_0000));
      } else {
        PutBytes(i, addr, Bytes(w, 4));
      }
      r := 0;
    }

    method Read32(addr: u32) returns (w: u32)
      requires Valid() && addr + 4 < TWO32
      modifies mappings
      ensures Valid() && w == LoadedWord(view, addr)
    {
      hide Distinct, Covered, Placed, Rearranged, LoadedWord;
      var i := Find(addr, 4);
      if i == numMappings {
        NothingLoaded(view, addr);
        return 0;
      }
      Touch(i, 4);
      var a, b, c, d := Get(i, addr), Get(i, addr + 1), Get(i, addr + 2), Get(i, addr + 3);
      RearrangedMeans(view, addr);
      w := Rearranged(addr % 4, a, b, c, d);
    }

    // ---- Transfers that may span mappings --------------------------------

    /** The search of the transfers: a mapping that contains the range, or else one that contains its first byte. */
    method FindSpan(addr: u32, size: u32) returns (i: nat, first: nat)
      requires Valid() && addr + size < TWO32 && Mapped(view, addr, size) && addr in view.bytes
      ensures i <= numMappings
      ensures i < numMappings ==> Inside(mappings[i], addr, size) && mappings[i].phys in blocks
      ensures i == numMappings ==>
        && first < i && Covers(mappings[first], addr) && Ends(mappings[first])
        && mappings[first].base + mappings[first].size < addr + size
    {
      hide Contains, Inside, Covers, Placed, Distinct, Covered, Wrap, Mapped;
      SomeCovers(addr);
      i := 0;
      var found := false;
      first := 0;
      while i < numMappings && !Contains(mappings[i], addr, size)
        invariant 0 <= i <= numMappings
        invariant forall j :: 0 <= j < i ==> !Inside(mappings[j], addr, size) && (!found ==> !Covers(mappings[j], addr))
        invariant found ==> first < i && Covers(mappings[first], addr)
      {
        ContainsMeans(i, addr, size);
        ContainsMeans(i, addr, 1);
        if Contains(mappings[i], addr, 1) {
          found, first := true, i;
        }
        i := i + 1;
      }
      ContainsMeans(if i < numMappings then i else first, addr, size);
    }

    lemma ContainsMeans(i: nat, addr: u32, n: u32)
      requires Valid() && i < numMappings
      ensures Ends(mappings[i]) && mappings[i].phys in blocks
      ensures addr + n < TWO32 ==> (Contains(mappings[i], addr, n) <==> Inside(mappings[i], addr, n))
      ensures Inside(mappings[i], addr, 1) <==> Covers(mappings[i], addr)
      ensures Covers(mappings[i], addr) && !Inside(mappings[i], addr, n) ==>
        mappings[i].base + mappings[i].size < addr + n
    {
      assert mappings[i] in Table();
    }

    lemma SomeCovers(addr: u32)
      requires Valid() && addr in view.bytes
      ensures addr + 1 < TWO32 && exists i :: 0 <= i < numMappings && Covers(mappings[i], addr)
    {
      assert addr in view.home;
      var m :| m in Table() && Covers(m, addr);
      var i :| 0 <= i < numMappings && mappings[i] == m;
    }

    /** Copies a buffer, which is only read, to the flat memory, mapping by mapping. A spare slot is needed because
        a transfer that spans mappings counts its access in the entry after the last one. */
    method Write(data: seq<u8>, addr: u32) returns (r: int)
      requires Valid() && numMappings < MAX_MAPPINGS
      requires addr + |data| < TWO32 && Mapped(view, addr, |data|) && addr in view.bytes
      modifies this`view, mappings, blocks
      ensures Valid() && r == 0 && view == Blit(old(view), addr, data)
      decreases |data|
    {
      hide Distinct, Covered, Placed, Blit, Ends, Mapped, Covers, Wrap, Valid;
      Bounds();
      var i, first := FindSpan(addr, |data|);
      if i == numMappings { Parts(mappings[first], addr, |data|); }
      Touch(i, |data|);
      if i < numMappings {
        PutBytes(i, addr, data);
        return 0;
      }
      assert mappings[first] == mappings[..][first];
      var end := Wrap(mappings[first].base + mappings[first].size);
      var part2 := Wrap(Wrap(addr + |data|) - end);
      var part1 := Wrap(|data| - part2);
      SplitTransfer(view, addr, |data|, data[..part1], data[part1..]);
      assert data[..part1] + data[part1..] == data;
      var _ := Write(data[..part1], addr);
      var _ := Write(data[part1..], addr + part1);
      r := 0;
    }

    /** Copies bytes of the flat memory to a buffer. */
    method Read(buf: array<u8>, off: nat, addr: u32, size: u32) returns (r: int)
      requires Valid() && buf !in blocks && off + size <= buf.Length
      requires addr + size < TWO32 && Mapped(view, addr, size) && addr in view.bytes
      modifies mappings, buf
      ensures Valid() && r == 0
      ensures buf[..] == Splice(old(buf[..]), off, Slice(view, addr, size))
      decreases size
    {
      hide Distinct, Covered, Placed, Ends, Covers, Wrap, Mapped, Valid, Splice;
      Bounds();
      var i, first := FindSpan(addr, size);
      if i < numMappings {
        Touch(i, size);
        CopyOut(i, buf, off, addr, size);
        return 0;
      }
      Parts(mappings[first], addr, size);
      Touch(first, size);
      assert mappings[first] == mappings[..][first];
      var end := Wrap(mappings[first].base + mappings[first].size);
      var part2 := Wrap(Wrap(addr + size) - end);
      var part1 := Wrap(size - part2);
      SliceJoin(view, addr, part1, part2);
      SpliceJoin(buf[..], off, Slice(view, addr, part1), Slice(view, addr + part1, part2));
      var _ := Read(buf, off, addr, part1);
      var _ := Read(buf, off + part1, addr + part1, part2);
      r := 0;
    }

    /** The memcpy out of a block. */
    method CopyOut(i: nat, buf: array<u8>, off: nat, addr: u32, size: u32)
      requires Valid() && i < numMappings && Inside(mappings[i], addr, size) && Mapped(view, addr, size)
      requires buf !in blocks && off + size <= buf.Length
      modifies buf
      ensures Valid() && buf[..] == Splice(old(buf[..]), off, Slice(view, addr, size))
    {
      hide Valid, Splice, Slice;
      ghost var before, data := buf[..], Slice(view, addr, size);
      SpliceNext(before, off, data, 0);
      var k := 0;
      while k < size
        invariant 0 <= k <= size && Valid() && buf[..] == Splice(before, off, data[..k])
      {
        SpliceNext(before, off, data, k);
        CopyByte(i, buf, off + k, addr + k);
        k := k + 1;
      }
      assert data[..k] == data;
    }

    method CopyByte(i: nat, buf: array<u8>, at: nat, addr: int)
      requires Valid() && i < numMappings && Covers(mappings[i], addr) && buf !in blocks && at < buf.Length
      modifies buf
      ensures Valid() && addr in view.bytes && buf[..] == old(buf[..])[at := view.bytes[addr]]
    {
      hide Distinct, Covered, Placed, Ends;
      buf[at] := Get(i, addr);
    }

    // ---- The set of mappings ---------------------------------------------

    /** Adds a mapping of zeros, unless it overlaps. The overlap test does not notice a mapping that the new one
        encloses (OverlapsExactly), so callers have to keep those apart. */
    method AddMapping(base: u32, size: u32) returns (r: int)
      requires Valid() && base + size < TWO32
      requires forall m :: m in Table() ==> !(base < m.base && m.base + m.size <= base + size)
      modifies this, mappings
      ensures Valid() && fresh(blocks - old(blocks))
      ensures r ==
        if size == 0 then 0 else if old(numMappings) == MAX_MAPPINGS then 1
        else if Clashes(old(view), base, size) then 2 else 0
      ensures view == if size > 0 && r == 0 then Extended(old(view), base, size) else old(view)
    {
      if size == 0 { return 0; }
      if numMappings == MAX_MAPPINGS { return 1; }
      var clash := FillSlot(base, size);
      if clash { return 2; }
      var block := new u8[size](_ => 0);
      Grow(block);
      r := 0;
    }

    /** Puts the new range into the spare slot and compares it with every mapping. */
    method FillSlot(base: u32, size: u32) returns (clash: bool)
      requires Valid() && base + size < TWO32 && size > 0 && numMappings < MAX_MAPPINGS
      requires forall m :: m in Table() ==> !(base < m.base && m.base + m.size <= base + size)
      modifies mappings
      ensures Valid() && Table() == old(Table())
      ensures mappings[numMappings].base == base && mappings[numMappings].size == size
      ensures clash == Clashes(view, base, size)
      ensures !clash ==> Apart(Table(), mappings[numMappings])
    {
      hide Distinct, Covered, Placed, Covers, Overlaps, Clashes;
      ghost var t := Table();
      var i := numMappings;
      mappings[i] := Mapping(base, size, mappings[i].phys, 0);
      assert Table() == t;
      var j := 0;
      while j < numMappings && !Overlaps(mappings[j], mappings[i])
        modifies {}
        invariant 0 <= j <= numMappings && Apart(t[..j], mappings[i])
      {
        assert mappings[j] == t[j] && t[..j + 1] == t[..j] + [t[j]];
        Compare(t, blocks, t[j], mappings[i]);
        j := j + 1;
      }
      if j < numMappings {
        assert mappings[j] == t[j];
        Compare(t, blocks, t[j], mappings[i]);
      }
      assert t[..numMappings] == t && Table() == t;
      WhenApart(mappings[i]);
      clash := j < numMappings;
    }

    /** The new mapping clashes with mapped addresses exactly when it is not apart from the mappings. */
    lemma WhenApart(m: Mapping)
      requires Valid()
      ensures Apart(Table(), m) <==> !Clashes(view, m.base, m.size)
    {
      hide Distinct, Placed, Ends;
      if a :| m.base <= a < m.base + m.size && a in view.bytes {
        assert a in view.home;
        var n :| n in Table() && Covers(n, a);
        assert Covers(m, a);
      }
      if n, a :| n in Table() && Covers(n, a) && Covers(m, a) {
        assert Placed(n, n.phys[..], view);
        HomeOf(n, n.phys[..], view, a);
        assert a in view.bytes;
      }
    }

    /** Takes the spare slot into use. */
    method Grow(block: array<u8>)
      requires Valid() && numMappings < MAX_MAPPINGS && block !in blocks && Ends(mappings[numMappings])
      requires block.Length == mappings[numMappings].size && (forall k :: 0 <= k < block.Length ==> block[k] == 0)
      requires Apart(Table(), mappings[numMappings])
      modifies this, mappings
      ensures Valid() && blocks == old(blocks) + {block}
      ensures view == old(Extended(view, mappings[numMappings].base, mappings[numMappings].size))
    {
      hide Distinct, Covered, Placed, Extended, Apart;
      ghost var t, f := Table(), view;
      var i := numMappings;
      mappings[i] := mappings[i].(phys := block);
      var m := mappings[i];
      numMappings := numMappings + 1;
      blocks := blocks + {block};
      view := Extended(f, m.base, m.size);
      assert Table() == t + [m];
      AddedDistinct(t, old(blocks), m);
      AddedCovered(t, f, m);
      NewPlaced(m, block[..], f);
      forall n | n in t
        ensures Placed(n, n.phys[..], view)
      {
        AddedPlaced(t, n, n.phys[..], f, m);
      }
    }

    // ---- Reordering ------------------------------------------------------

    /** Moves the most used mappings to the front (a selection sort) and resets the access counts. Only the order
        in which the linear search meets the mappings changes; what the memory holds does not. */
    method Reorder() returns (ghost sorted: seq<Mapping>)
      requires Valid() && numMappings > 0
      modifies mappings
      ensures Valid()
      ensures multiset(sorted) == multiset(old(Table())) && Descending(sorted)
      ensures Table() == Uncounted(sorted, |sorted|)
    {
      hide Placed, Distinct, Covered, Uncounted, Descending;
      SortByAccesses();
      sorted := Table();
      UncountedStep(sorted, 0);
      var i := 0;
      while i < numMappings
        invariant 0 <= i <= numMappings && Valid()
        invariant Table() == Uncounted(sorted, i)
      {
        UncountedStep(sorted, i);
        Reset(i);
        i := i + 1;
      }
    }

    method Reset(i: nat)
      requires Valid() && i < numMappings
      modifies mappings
      ensures Valid() && Table() == old(Table())[i := old(Table()[i]).(accesses := 0)]
    {
      hide Placed, Distinct, Covered;
      ghost var t := Table();
      var m := mappings[i];
      mappings[i] := m.(accesses := 0);
      assert Table() == t[i := mappings[i]] && m in t;
      Retouched(t, blocks, view, i, 0);
      PlacedIgnoresAccesses(m, m.phys[..], view, 0);
    }

    method SortByAccesses()
      requires Valid() && numMappings > 0
      modifies mappings
      ensures Valid() && multiset(Table()) == multiset(old(Table())) && Descending(Table())
    {
      hide Distinct, Covered, Placed;
      var i := 0;
      while i < numMappings - 1
        invariant 0 <= i <= numMappings - 1 && Valid() && multiset(Table()) == multiset(old(Table()))
        invariant SortedUpTo(Table(), i)
      {
        var max := Busiest(i);
        SelectionStep(Table(), i, max);
        Exchange(i, max);
        i := i + 1;
      }
    }

    /** The most used mapping from position i on. */
    method Busiest(i: nat) returns (max: nat)
      requires Valid() && i < numMappings
      ensures i <= max < numMappings
      ensures forall k :: i <= k < numMappings ==> Table()[k].accesses <= Table()[max].accesses
    {
      hide Distinct, Covered, Placed;
      max := i;
      var j := i + 1;
      while j < numMappings
        invariant i <= max < j <= numMappings
        invariant forall k :: i <= k < j ==> mappings[k].accesses <= mappings[max].accesses
      {
        if mappings[j].accesses > mappings[max].accesses { max := j; }
        j := j + 1;
      }
    }

    method Exchange(i: nat, j: nat)
      requires Valid() && i <= j < numMappings
      modifies mappings
      ensures Valid() && Table() == Swap(old(Table()), i, j)
    {
      hide Distinct, Covered, Placed;
      ghost var t := Table();
      var temp := mappings[i];
      mappings[i] := mappings[j];
      mappings[j] := temp;
      assert Table() == Swap(t, i, j);
      Swapped(t, blocks, view, i, j);
    }

    // ---- Runs ------------------------------------------------------------

    method Perform(op: Access) returns (answer: int)
      requires Valid() && InBounds(op) && numMappings > 0
      modifies this`view, mappings, blocks
      ensures Valid() && answer == Answer(old(view), op) && view == Effect(old(view), op)
    {
      hide Valid, Loaded, LoadedWord, Stored, Bytes;
      match op
      case LoadByte(addr) => answer := Read8(addr);
      case LoadHalf(addr) => answer := Read16(addr);
      case LoadWord(addr) => answer := Read32(addr);
      case StoreByte(addr, b) => answer := Write8(addr, b);
      case StoreHalf(addr, h) => answer := Write16(addr, h);
      case StoreWord(addr, w) => answer := Write32(addr, w);
      case Frame =>
        var _ := Reorder();
        answer := 0;
    }

    /** Any sequence of loads, stores and reorderings answers as the flat memory would. */
    method Replay(ops: seq<Access>) returns (answers: seq<int>)
      requires Valid() && numMappings > 0 && forall op :: op in ops ==> InBounds(op)
      modifies this`view, mappings, blocks
      ensures Valid() && (answers, view) == Outcomes(old(view), ops)
    {
      hide Valid, Answer, Effect, InBounds;
      answers := [];
      var i := 0;
      while i < |ops|
        invariant 0 <= i <= |ops| && Valid() && (answers, view) == Outcomes(old(view), ops[..i])
      {
        assert ops[..i + 1][..i] == ops[..i];
        var a := Perform(ops[i]);
        answers := answers + [a];
        i := i + 1;
      }
      assert ops[..i] == ops;
    }
  }

  /** The split of a transfer: the first part fills its mapping, and both parts are shorter than the whole. */
  lemma Parts(m: Mapping, addr: u32, size: u32)
    requires Covers(m, addr) && m.base + m.size < addr + size < TWO32
    ensures var part2 := Wrap(Wrap(addr + size) - Wrap(m.base + m.size));
      var part1 := Wrap(size - part2);
      && addr + part1 == m.base + m.size && part1 + part2 == size && 0 < part1 && 0 < part2
  {
  }

  lemma SpliceNext(b: seq<u8>, off: nat, data: seq<u8>, k: nat)
    requires off + |data| <= |b| && k <= |data|
    ensures Splice(b, off, data[..0]) == b
    ensures k < |data| ==> Splice(b, off, data[..k])[off + k := data[k]] == Splice(b, off, data[..k + 1])
  {
  }

  lemma SpliceJoin(b: seq<u8>, off: nat, x: seq<u8>, y: seq<u8>)
    requires off + |x| + |y| <= |b|
    ensures Splice(Splice(b, off, x), off + |x|, y) == Splice(b, off, x + y)
  {
  }

  lemma SliceJoin(f: Flat, addr: int, m: nat, n: nat)
    requires Mapped(f, addr, m + n) && m > 0 && n > 0
    ensures Mapped(f, addr, m) && Mapped(f, addr + m, n) && addr + m in f.bytes
    ensures Slice(f, addr, m) + Slice(f, addr + m, n) == Slice(f, addr, m + n)
  {
  }

  /** Writing the two parts one after the other writes the whole, and the second part is still mapped by then. */
  lemma SplitTransfer(f: Flat, addr: int, size: nat, x: seq<u8>, y: seq<u8>)
    requires Mapped(f, addr, size) && |x| + |y| == size && |x| > 0 && |y| > 0
    ensures Mapped(f, addr, |x|)
    ensures Mapped(Blit(f, addr, x), addr + |x|, |y|) && addr + |x| in Blit(f, addr, x).bytes
    ensures Blit(Blit(f, addr, x), addr + |x|, y) == Blit(f, addr, x + y)
  {
    BlitJoin(f, addr, x, y);
  }

  lemma BlitNothing(f: Flat, addr: int)
    ensures Blit(f, addr, []) == f
  {
    assert Blit(f, addr, []).bytes == f.bytes;
  }

  lemma FourBlits(f: Flat, addr: int, a: u8, b: u8, c: u8, d: u8)
    ensures Blit(Blit(Blit(Blit(f, addr, [a]), addr + 1, [b]), addr + 2, [c]), addr + 3, [d])
      == Blit(f, addr, [a, b, c, d])
  {
    hide Blit;
    BlitJoin(f, addr, [a], [b]);
    BlitJoin(f, addr, [a, b], [c]);
    BlitJoin(f, addr, [a, b, c], [d]);
    assert [a] + [b] == [a, b] && [a, b] + [c] == [a, b, c] && [a, b, c] + [d] == [a, b, c, d];
  }

  /** Changing an access count keeps the ranges and blocks. */
  lemma Retouched(t: seq<Mapping>, blocks: set<array<u8>>, f: Flat, i: nat, n: nat)
    requires Distinct(t, blocks) && Covered(t, f) && i < |t|
    ensures var u := t[i := t[i].(accesses := n)]; Distinct(u, blocks) && Covered(u, f)
  {
    hide Covered, Covers, Distinct;
    var u := t[i := t[i].(accesses := n)];
    DistinctLikewise(t, u, blocks);
    forall m | m in t
      ensures exists n :: n in u && n.base == m.base && n.size == m.size
    {
      var k :| 0 <= k < |t| && t[k] == m;
      assert u[k] in u;
    }
    CoveredLikewise(t, u, f);
  }

  lemma DistinctLikewise(t: seq<Mapping>, u: seq<Mapping>, blocks: set<array<u8>>)
    requires Distinct(t, blocks) && |u| == |t|
    requires forall k :: 0 <= k < |t| ==> u[k].base == t[k].base && u[k].size == t[k].size && u[k].phys == t[k].phys
    ensures Distinct(u, blocks)
  {
    forall m | m in u
      ensures Ends(m) && m.phys in blocks
    {
      var k :| 0 <= k < |u| && u[k] == m;
      assert t[k] in t;
    }
  }
}
