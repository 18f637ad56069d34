/** The GPU command stream of src/gpu/commands.c. */
module GpuCommands {
  import opened Words
  import opened Memory

  const MAX_WORDS := 0x800

  /** A command: a register, a byte mask, the first value and up to 2047 more, for the same register or, if grouped,
      for the registers that follow. An odd number of further values is padded with a word that has no meaning. */
  datatype Command = Command(id: nat, mask: nat, grouped: bool, first: u32, extra: seq<u32>, pad: u32)

  predicate Encodable(c: Command) {
    c.id < 0x1_0000 && c.mask < 16 && |c.extra| < MAX_WORDS && (|c.extra| % 2 == 0 ==> c.pad == 0)
  }

  predicate AllEncodable(cs: seq<Command>) { forall k :: 0 <= k < |cs| ==> Encodable(cs[k]) }

  function Header(c: Command): (h: u32)
    requires Encodable(c)
  {
    c.id + 0x1_0000 * c.mask + 0x10_0000 * |c.extra| + if c.grouped then TWO31 else 0
  }

  function Padding(c: Command): seq<u32> { if |c.extra| % 2 == 1 then [c.pad] else [] }

  function Encode(c: Command): seq<u32>
    requires Encodable(c)
  {
    [c.first, Header(c)] + c.extra + Padding(c)
  }

  function EncodeAll(cs: seq<Command>): seq<u32>
    requires AllEncodable(cs)
  {
    if cs == [] then [] else Encode(cs[0]) + EncodeAll(cs[1..])
  }

  /** A call of the register interface. */
  datatype Write = Write(id: nat, mask: nat, data: seq<u32>)

  /** What a command writes: nothing if it is masked out, values to consecutive registers if it is grouped. */
  function Writes(c: Command): seq<Write> {
    var data := [c.first] + c.extra;
    if c.mask == 0 then []
    else if c.grouped then seq(|data|, j requires 0 <= j < |data| => Write((c.id + j) % 0x1_0000, c.mask, [data[j]]))
    else [Write(c.id, c.mask, data)]
  }

  function AllWrites(cs: seq<Command>): seq<Write> {
    if cs == [] then [] else AllWrites(cs[..|cs| - 1]) + Writes(cs[|cs| - 1])
  }

  /** The values of a command. */
  function Data(c: Command): (d: seq<u32>)
    ensures |d| == |c.extra| + 1
  {
    [c.first] + c.extra
  }

  /** A grouped command as single ones for consecutive registers. */
  function Singles(c: Command): (cs: seq<Command>)
    ensures |cs| == |c.extra| + 1
  {
    seq(|c.extra| + 1, j requires 0 <= j <= |c.extra| =>
      Command((c.id + j) % 0x1_0000, c.mask, false, Data(c)[j], [], 0))
  }

  /** A command that is not grouped writes all its values to one register in one call; one that is masked out writes
      nothing. */
  lemma PlainWrites(c: Command)
    requires !c.grouped
    ensures AllWrites([c]) == if c.mask == 0 then [] else [Write(c.id, c.mask, [c.first] + c.extra)]
  {
    OneCommand(c);
  }

  lemma OneCommand(c: Command)
    ensures AllWrites([c]) == Writes(c)
  {
    hide Writes;
    assert [c][..0] == [] && AllWrites([]) == [];
  }

  /** A grouped command writes what the single commands for consecutive registers write. */
  lemma GroupedWrites(c: Command)
    requires Encodable(c) && c.grouped
    ensures AllEncodable(Singles(c)) && AllWrites(Singles(c)) == AllWrites([c])
  {
    hide Writes;
    OneCommand(c);
    SinglesUpTo(c, |c.extra| + 1);
    assert Singles(c)[..|c.extra| + 1] == Singles(c);
    GroupedLength(c);
  }

  lemma GroupedLength(c: Command)
    requires c.grouped
    ensures |Writes(c)| == (if c.mask == 0 then 0 else |c.extra| + 1) && Writes(c)[..|Writes(c)|] == Writes(c)
  {
  }

  lemma {:induction false} SinglesUpTo(c: Command, n: nat)
    requires c.grouped && n <= |c.extra| + 1
    ensures AllWrites(Singles(c)[..n]) == if c.mask == 0 then [] else Writes(c)[..n]
  {
    hide AllWrites;
    if n == 0 {
      NothingWritten();
    } else {
      SinglesUpTo(c, n - 1);
      var single := Singles(c)[n - 1];
      assert c.mask != 0 ==> Writes(c)[..n] == Writes(c)[..n - 1] + [Writes(c)[n - 1]];
      assert [Data(c)[n - 1]] + [] == [Data(c)[n - 1]];
      assert Singles(c)[..n] == Singles(c)[..n - 1] + [single];
      WritesStep(Singles(c)[..n - 1], single);
    }
  }

  // ---- Registers ---------------------------------------------------------

  /** Byte i of a word. */
  function Lane(w: u32, i: nat): u8
    requires i < 4
  {
    Bytes(w, 4)[i]
  }

  /** The word whose bytes are taken from data where the mask selects them. */
  function Merged(w: u32, data: u32, mask: nat): u32 {
    LittleWord(seq(4, i requires 0 <= i < 4 => if Bit(mask, i) then Lane(data, i) else Lane(w, i)))
  }

  lemma MergedLanes(w: u32, data: u32, mask: nat, i: nat)
    requires i < 4
    ensures Lane(Merged(w, data, mask), i) == if Bit(mask, i) then Lane(data, i) else Lane(w, i)
  {
    hide Bit, LittleWord;
    BytesOfLittle(seq(4, i requires 0 <= i < 4 => if Bit(mask, i) then Lane(data, i) else Lane(w, i)));
  }

  /** updateGPUintreg: replaces the bytes of a register that the mask selects. */
  method UpdateRegister(regs: array<u32>, data: u32, id: nat, mask: nat)
    requires id < regs.Length
    modifies regs
    ensures regs[..] == old(regs[..])[id := Merged(old(regs[id]), data, mask)]
  {
    hide Bit, LittleWord, Bytes;
    ghost var w := regs[id];
    LittleWordOfBytes(w);
    assert Bytes(w, 4) == Mixed(w, data, mask, 0);
    var i := 0;
    while i < 4
      invariant 0 <= i <= 4 && regs[..] == old(regs[..])[id := LittleWord(Mixed(w, data, mask, i))]
    {
      NextLane(w, data, mask, i);
      if Bit(mask, i) {
        regs[id] := LittleWord(Bytes(regs[id], 4)[i := Lane(data, i)]);
      }
      i := i + 1;
    }
    NextLane(w, data, mask, 0);
  }

  /** The bytes of a word, the first n of them replaced where the mask selects them. */
  function Mixed(w: u32, data: u32, mask: nat, n: nat): (s: seq<u8>)
    ensures |s| == 4
  {
    seq(4, i requires 0 <= i < 4 => if i < n && Bit(mask, i) then Lane(data, i) else Lane(w, i))
  }

  lemma NextLane(w: u32, data: u32, mask: nat, n: nat)
    requires n < 4
    ensures var s, t := Mixed(w, data, mask, n), Mixed(w, data, mask, n + 1);
      Bytes(LittleWord(s), 4) == s && t == if Bit(mask, n) then s[n := Lane(data, n)] else s
    ensures LittleWord(Mixed(w, data, mask, 4)) == Merged(w, data, mask)
  {
    hide Bit, Bytes, Little;
    BytesOfLittle(Mixed(w, data, mask, n));
    assert Mixed(w, data, mask, 4) ==
      seq(4, i requires 0 <= i < 4 => if Bit(mask, i) then Lane(data, i) else Lane(w, i));
  }

  predicate WithData(ws: seq<Write>) { forall k :: 0 <= k < |ws| ==> ws[k].data != [] && ws[k].id < 0x1_0000 }

  /** A file of ordinary registers after writes: of several values for one register the first is taken. */
  function Written(regs: seq<u32>, ws: seq<Write>): (r: seq<u32>)
    requires |regs| == 0x1_0000 && WithData(ws)
    ensures |r| == |regs|
  {
    if ws == [] then regs
    else
      var r, w := Written(regs, ws[..|ws| - 1]), ws[|ws| - 1];
      r[w.id := Merged(r[w.id], w.data[0], w.mask)]
  }

  /** writeGPUID for ordinary registers. */
  method WriteRegisters(regs: array<u32>, ws: seq<Write>)
    requires regs.Length == 0x1_0000 && WithData(ws)
    modifies regs
    ensures regs[..] == Written(old(regs[..]), ws)
  {
    hide Merged, Written;
    ghost var before := regs[..];
    var i := 0;
    WrittenStep(before, ws, 0);
    while i < |ws|
      invariant 0 <= i <= |ws| && regs[..] == Written(before, ws[..i])
    {
      WrittenStep(before, ws, i);
      UpdateRegister(regs, ws[i].data[0], ws[i].id, ws[i].mask);
      i := i + 1;
    }
    assert ws[..i] == ws;
  }

  lemma WrittenStep(regs: seq<u32>, ws: seq<Write>, i: nat)
    requires |regs| == 0x1_0000 && WithData(ws) && i <= |ws|
    ensures Written(regs, ws[..0]) == regs
    ensures i < |ws| ==>
      var r := Written(regs, ws[..i]);
      Written(regs, ws[..i + 1]) == r[ws[i].id := Merged(r[ws[i].id], ws[i].data[0], ws[i].mask)]
  {
    hide Merged;
    if i < |ws| { assert ws[..i + 1][..i] == ws[..i]; }
  }

  /** What a grouped command does to ordinary registers: the one j places after its own gets value j, in the bytes that
      the mask selects, and no other register changes. */
  lemma GroupedSetsRegisters(c: Command, regs: seq<u32>, x: nat)
    requires Encodable(c) && c.grouped && |regs| == 0x1_0000 && x < 0x1_0000
    ensures WithData(AllWrites([c]))
    ensures var j := (x - c.id) % 0x1_0000;
      Written(regs, AllWrites([c]))[x] == if j <= |c.extra| then Merged(regs[x], Data(c)[j], c.mask) else regs[x]
  {
    hide Merged, AllWrites, Written;
    OneCommand(c);
    GroupedLength(c);
    if c.mask == 0 {
      WrittenStep(regs, Writes(c), 0);
      NothingSelected(regs[x], Data(c));
    } else {
      PlacesWritten(c, regs, x, |c.extra| + 1);
    }
  }

  lemma NothingSelected(w: u32, data: seq<u32>)
    ensures forall j :: 0 <= j < |data| ==> Merged(w, data[j], 0) == w
  {
    hide LittleWord, Bytes;
    forall j | 0 <= j < |data|
      ensures Merged(w, data[j], 0) == w
    {
      LittleWordOfBytes(w);
      assert forall i: nat :: !Bit(0, i);
      assert Bytes(w, 4) == seq(4, i requires 0 <= i < 4 => if Bit(0, i) then Lane(data[j], i) else Lane(w, i));
    }
  }

  lemma {:induction false} PlacesWritten(c: Command, regs: seq<u32>, x: nat, n: nat)
    requires Encodable(c) && c.grouped && c.mask != 0 && |regs| == 0x1_0000 && x < 0x1_0000 && n <= |c.extra| + 1
    ensures WithData(Writes(c))
    ensures var j := (x - c.id) % 0x1_0000;
      Written(regs, Writes(c)[..n])[x] == if j < n then Merged(regs[x], Data(c)[j], c.mask) else regs[x]
  {
    hide Merged, Written;
    WrittenStep(regs, Writes(c), if n == 0 then 0 else n - 1);
    if n > 0 {
      PlacesWritten(c, regs, x, n - 1);
      PlaceOf(c.id, n - 1, x);
    }
  }

  lemma PlaceOf(id: nat, n: nat, x: nat)
    requires id < 0x1_0000 && n < 0x1_0000 && x < 0x1_0000
    ensures (id + n) % 0x1_0000 == x <==> (x - id) % 0x1_0000 == n
  {
  }

  // ---- Reading a stream --------------------------------------------------

  function IdOf(h: u32): nat { h % 0x1_0000 }
  function MaskOf(h: u32): nat { h / 0x1_0000 % 16 }
  function SizeOf(h: u32): nat { h / 0x10_0000 % 0x800 }
  function IsGrouped(h: u32): bool { h / TWO31 == 1 }

  /** The number of words of a command, which is even. */
  function Span(h: u32): (n: nat)
    ensures 2 <= n && n % 2 == 0
  {
    2 + SizeOf(h) + SizeOf(h) % 2
  }

  /** Is the rest of the stream, from word k on, a sequence of whole commands? */
  predicate Whole(words: seq<u32>, k: nat)
    requires k <= |words|
    decreases |words| - k
  {
    k == |words| || (k + 2 <= |words| && k + Span(words[k + 1]) <= |words| && Whole(words, k + Span(words[k + 1])))
  }

  function CommandAt(words: seq<u32>, k: nat): (c: Command)
    requires k + 2 <= |words| && k + Span(words[k + 1]) <= |words|
    ensures Encodable(c)
  {
    var h := words[k + 1];
    var end := k + 2 + SizeOf(h);
    Command(IdOf(h), MaskOf(h), IsGrouped(h), words[k], words[k + 2..end], if SizeOf(h) % 2 == 1 then words[end] else 0)
  }

  function Commands(words: seq<u32>, k: nat): seq<Command>
    requires k <= |words| && Whole(words, k)
    decreases |words| - k
  {
    if k == |words| then [] else [CommandAt(words, k)] + Commands(words, k + Span(words[k + 1]))
  }

  // ---- The encoding is inverted ------------------------------------------

  lemma HeaderFields(c: Command)
    requires Encodable(c)
    ensures var h := Header(c);
      IdOf(h) == c.id && MaskOf(h) == c.mask && SizeOf(h) == |c.extra| && IsGrouped(h) == c.grouped
  {
    var h := Header(c);
    var g := if c.grouped then 1 else 0;
    var upper := c.mask + 16 * |c.extra| + 0x8000 * g;
    DivUnique(h, 0x1_0000, upper, c.id);
    DivUnique(upper, 16, |c.extra| + 0x800 * g, c.mask);
    DivUnique(h, 0x10_0000, |c.extra| + 0x800 * g, c.id + 0x1_0000 * c.mask);
    DivUnique(|c.extra| + 0x800 * g, 0x800, g, |c.extra|);
    DivUnique(h, TWO31, g, c.id + 0x1_0000 * c.mask + 0x10_0000 * |c.extra|);
  }

  /** An encoded command is read back. */
  lemma ReadsCommand(before: seq<u32>, c: Command, rest: seq<u32>)
    requires Encodable(c)
    ensures var words, k := before + Encode(c) + rest, |before|;
      && k + 2 <= |words| && Span(words[k + 1]) == |Encode(c)| && k + Span(words[k + 1]) <= |words|
      && CommandAt(words, k) == c
  {
    hide Header, IdOf, MaskOf, SizeOf, IsGrouped;
    var words, k := before + Encode(c) + rest, |before|;
    HeaderFields(c);
    assert words[k] == c.first && words[k + 1] == Header(c);
    assert words[k + 2..k + 2 + |c.extra|] == c.extra;
    assert |c.extra| % 2 == 1 ==> words[k + 2 + |c.extra|] == c.pad;
  }

  /** An encoded list of commands is read back, from wherever it starts. */
  lemma {:induction false} ReadsCommands(before: seq<u32>, cs: seq<Command>)
    requires AllEncodable(cs)
    ensures var words := before + EncodeAll(cs);
      Whole(words, |before|) && Commands(words, |before|) == cs
    decreases |cs|
  {
    hide Encode, CommandAt, Span;
    var words := before + EncodeAll(cs);
    if cs == [] {
      assert words == before;
    } else {
      var rest := EncodeAll(cs[1..]);
      assert words == before + Encode(cs[0]) + rest;
      ReadsCommand(before, cs[0], rest);
      ReadsCommands(before + Encode(cs[0]), cs[1..]);
    }
  }

  /** The words 10, 0x802F0200, 20 and 30 are one command, which writes 10, 20 and 30 to the registers 0x200 to
      0x202. */
  lemma ThreeRegisters()
    ensures var words := [10, 0x802F_0200, 20, 30];
      Whole(words, 0) && AllWrites(Commands(words, 0))
        == [Write(0x200, 15, [10]), Write(0x201, 15, [20]), Write(0x202, 15, [30])]
  {
    hide Encode, Commands, Whole, Writes, AllWrites;
    var c := Command(0x200, 15, true, 10, [20, 30], 0);
    ThreeEncoded();
    assert [c][1..] == [] && EncodeAll([]) == [];
    assert [] + EncodeAll([c]) == Encode(c);
    ReadsCommands([], [c]);
    OneCommand(c);
    ThreeWritten();
  }

  lemma ThreeEncoded()
    ensures Encode(Command(0x200, 15, true, 10, [20, 30], 0)) == [10, 0x802F_0200, 20, 30]
  {
  }

  lemma ThreeWritten()
    ensures Writes(Command(0x200, 15, true, 10, [20, 30], 0))
      == [Write(0x200, 15, [10]), Write(0x201, 15, [20]), Write(0x202, 15, [30])]
  {
  }

  // ---- The interpreter ---------------------------------------------------

  /** Copies the values of the command at byte i into the field buffer, which always has room for them. */
  method Gather(words: seq<u32>, i: nat, size: nat, field: array<u32>)
    requires i % 4 == 0 && i / 4 + 2 + size <= |words| && size < MAX_WORDS == field.Length
    modifies field
    ensures field[..size + 1] == [words[i / 4]] + words[i / 4 + 2..i / 4 + 2 + size]
  {
    field[0] := words[i / 4];
    var at := i;
    var j := 0;
    while j < size
      invariant 0 <= j <= size && at == i + 4 * j
      invariant field[..j + 1] == [words[i / 4]] + words[i / 4 + 2..i / 4 + 2 + j]
    {
      WordAt(i, j);
      field[1 + j] := words[(8 + at) / 4];
      at := at + 4;
      j := j + 1;
    }
  }

  lemma WordAt(i: nat, j: nat)
    requires i % 4 == 0
    ensures (8 + (i + 4 * j)) / 4 == i / 4 + 2 + j
  {
    DivUnique(8 + (i + 4 * j), 4, i / 4 + 2 + j, 0);
  }

  /** The register writes of one command. */
  method Emit(id: nat, mask: nat, grouped: bool, size: nat, field: array<u32>, ghost c: Command)
    returns (writes: seq<Write>)
    requires size < field.Length && id == c.id && mask == c.mask && grouped == c.grouped
    requires field[..size + 1] == [c.first] + c.extra
    ensures writes == Writes(c)
    ensures mask == 0 ==> writes == []
    ensures mask != 0 && !grouped ==> writes == [Write(id, mask, Data(c))]
    ensures mask != 0 && grouped ==> |writes| == size + 1
    ensures mask != 0 && grouped ==>
      forall k :: 0 <= k <= size ==> writes[k] == Write((id + k) % 0x1_0000, mask, [Data(c)[k]])
  {
    writes := [];
    if mask != 0 {
      if grouped {
        var j := 0;
        while j <= size
          invariant 0 <= j <= size + 1
          invariant |writes| == j
          invariant forall k :: 0 <= k < j ==> writes[k] == Write((id + k) % 0x1_0000, mask, [field[k]])
        {
          writes := writes + [Write((id + j) % 0x1_0000, mask, [field[j]])];
          j := j + 1;
        }
      } else {
        writes := [Write(id, mask, field[..size + 1])];
      }
    }
  }

  lemma WholeStep(words: seq<u32>, k: nat)
    requires k <= |words| && Whole(words, k)
    ensures k == |words| ==> Commands(words, k) == []
    ensures k < |words| ==>
      && k + 2 <= |words| && k + Span(words[k + 1]) <= |words| && Whole(words, k + Span(words[k + 1]))
      && Commands(words, k) == [CommandAt(words, k)] + Commands(words, k + Span(words[k + 1]))
  {
  }

  lemma WritesStep(done: seq<Command>, c: Command)
    ensures AllWrites(done + [c]) == AllWrites(done) + Writes(c)
  {
    assert (done + [c])[..|done|] == done;
  }

  /** gpu_ExecuteCommands: the register writes of a stream of whole commands, in order. */
  method ExecuteCommands(words: seq<u32>) returns (writes: seq<Write>)
    requires Whole(words, 0)
    ensures writes == AllWrites(Commands(words, 0))
  {
    hide Writes, CommandAt, Span, Commands, AllWrites, Whole, SizeOf;
    var field := new u32[MAX_WORDS];
    writes := [];
    var i := 0;
    ghost var k := 0;
    ghost var done: seq<Command> := [];
    NothingWritten();
    while i < 4 * |words|
      invariant i == 4 * k && k % 2 == 0 && k <= |words| && Whole(words, k)
      invariant Commands(words, 0) == done + Commands(words, k) && writes == AllWrites(done)
      decreases |words| - k
    {
      WholeStep(words, k);
      Advances(i, k, words[k + 1]);
      var w := ExecuteCommand(words, i, field);
      ghost var c := CommandAt(words, k);
      WritesStep(done, c);
      writes := writes + w;
      done := done + [c];
      var size := SizeOf(words[i / 4 + 1]);
      i := i + 4 * size + (if size % 2 == 1 then 4 else 0) + 8;
      k := k + Span(words[k + 1]);
    }
    WholeStep(words, k);
    assert done + [] == done;
  }

  lemma NothingWritten()
    ensures AllWrites([]) == []
  {
  }

  /** The next command starts at a multiple of eight bytes. */
  lemma Advances(i: nat, k: nat, h: u32)
    requires i == 4 * k && k % 2 == 0
    ensures i % 8 == 0 && i / 4 == k && (k + Span(h)) % 2 == 0 && Span(h) > 0
    ensures i + 4 * SizeOf(h) + (if SizeOf(h) % 2 == 1 then 4 else 0) + 8 == 4 * (k + Span(h))
  {
    hide SizeOf;
    DivUnique(i, 8, k / 2, 0);
    DivUnique(i, 4, k, 0);
    DivUnique(k + Span(h), 2, k / 2 + Span(h) / 2, 0);
  }

  /** One command, at byte i. */
  method ExecuteCommand(words: seq<u32>, i: nat, field: array<u32>) returns (writes: seq<Write>)
    requires i % 8 == 0 && i == 4 * (i / 4) && field.Length == MAX_WORDS
    requires i / 4 + 2 <= |words| && i / 4 + Span(words[i / 4 + 1]) <= |words|
    modifies field
    ensures writes == Writes(CommandAt(words, i / 4))
  {
    hide Writes;
    var cmd := words[i / 4 + 1];
    Gather(words, i, SizeOf(cmd), field);
    writes := Emit(IdOf(cmd), MaskOf(cmd), IsGrouped(cmd), SizeOf(cmd), field, CommandAt(words, i / 4));
  }

  // ---- Command lists in memory -------------------------------------------

  function WordsIn(bytes: seq<u8>): (words: seq<u32>)
    requires |bytes| % 4 == 0
    ensures |words| == |bytes| / 4
  {
    seq(|bytes| / 4, k requires 0 <= k < |bytes| / 4 => LittleWord(bytes[4 * k..4 * k + 4]))
  }

  function BytesOf(words: seq<u32>): (bytes: seq<u8>)
    ensures |bytes| == 4 * |words|
  {
    if words == [] then [] else BytesOf(words[..|words| - 1]) + Bytes(words[|words| - 1], 4)
  }

  lemma {:induction false} BytesAt(words: seq<u32>, k: nat)
    requires k < |words|
    ensures BytesOf(words)[4 * k..4 * k + 4] == Bytes(words[k], 4)
    decreases |words|
  {
    hide Bytes;
    var last := |words| - 1;
    if k < last {
      BytesAt(words[..last], k);
      assert BytesOf(words)[4 * k..4 * k + 4] == BytesOf(words[..last])[4 * k..4 * k + 4];
    }
  }

  lemma WordsOfBytes(words: seq<u32>)
    ensures |BytesOf(words)| % 4 == 0 && WordsIn(BytesOf(words)) == words
  {
    hide BytesOf, LittleWord, Bytes;
    forall k | 0 <= k < |words|
      ensures WordsIn(BytesOf(words))[k] == words[k]
    {
      BytesAt(words, k);
      LittleWordOfBytes(words[k]);
    }
  }

  lemma SpliceAll(b: seq<u8>, data: seq<u8>)
    requires |data| == |b|
    ensures Splice(b, 0, data) == data
  {
  }

  /** GX SetCmdList: the list is copied from the memory of the program, through its mappings, and executed. Whatever
      commands are encoded there, their writes reach the registers in order. */
  method SetCommandList(mem: Segments, addr: u32, size: u32, ghost cs: seq<Command>) returns (writes: seq<Write>)
    requires mem.Valid() && addr + size < TWO32 && Mapped(mem.view, addr, size) && addr in mem.view.bytes
    requires AllEncodable(cs) && Slice(mem.view, addr, size) == BytesOf(EncodeAll(cs))
    modifies mem.mappings
    ensures mem.Valid() && writes == AllWrites(cs)
  {
    hide mem.Valid, Slice, Splice, WordsIn, BytesOf, EncodeAll, Whole, Commands, AllWrites;
    var buffer := new u8[size];
    SpliceAll(buffer[..], Slice(mem.view, addr, size));
    var _ := mem.Read(buffer, 0, addr, size);
    WordsOfBytes(EncodeAll(cs));
    ReadsCommands([], cs);
    assert [] + EncodeAll(cs) == EncodeAll(cs);
    writes := ExecuteCommands(WordsIn(buffer[..]));
  }
}
