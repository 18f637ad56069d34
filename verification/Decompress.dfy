/** The backward decompressor of src/loader.c: code segments are packed from their end towards their start, in groups
    of up to eight tokens under a control byte. */
module Decompress {
  import opened Words
  import opened Memory

  // ---- Reading backwards -------------------------------------------------

  /** Where the decoder stands: has it succeeded so far, what it has written (the end of the output) and the
      number of compressed bytes still to be read. */
  datatype Progress = Progress(ok: bool, written: seq<u8>, index: nat)

  /** A match copies n bytes, one at a time, from a fixed distance above the output; it may read what it has written. */
  function Copy(written: seq<u8>, offset: nat, n: nat): (r: (bool, seq<u8>))
    ensures |written| <= |r.1| <= |written| + n && (r.0 ==> |r.1| == |written| + n)
    decreases n
  {
    if n == 0 then (true, written)
    else if offset >= |written| then (false, written)
    else Copy([written[offset]] + written, offset, n - 1)
  }

  /** Every byte that a successful copy adds equals the one that ends up offset + 1 places above it, which may itself be
      one of them. */
  lemma {:induction false} CopyRepeats(written: seq<u8>, offset: nat, n: nat)
    requires Copy(written, offset, n).0
    ensures var w, d := Copy(written, offset, n).1, offset + 1;
      && |w| == |written| + n && w[n..] == written
      && (n > 0 ==> d <= |written|) && (d <= |written| ==> w[..n] == w[d..d + n])
    decreases n
  {
    if n > 0 {
      var next := [written[offset]] + written;
      CopyRepeats(next, offset, n - 1);
      var w, d := Copy(written, offset, n).1, offset + 1;
      assert w[n - 1..] == next && w[n..] == w[n - 1..][1..];
      assert w[n - 1] == w[n - 1..][0] && w[n - 1 + d] == w[n - 1..][d];
      assert w[..n] == w[..n - 1] + [w[n - 1]] && w[d..d + n] == w[d..d + n - 1] + [w[n - 1 + d]];
    }
  }

  function Field(c: seq<u8>, index: nat): nat
    requires 2 <= index <= |c|
  {
    c[index - 2] as nat + 256 * (c[index - 1] as nat)
  }

  /** One token; the top bit of the control byte selects a match. */
  function ReadToken(c: seq<u8>, total: nat, control: nat, index: nat, written: seq<u8>): (p: Progress)
    requires 1 <= index <= |c| && |written| < total
    ensures p.index <= index && |p.written| <= total
  {
    if control >= 128 then
      if index < 2 then Progress(false, written, index)
      else
        var size, offset := Field(c, index) / 4096 + 3, Field(c, index) % 4096 + 2;
        if total - |written| < size then Progress(false, written, index - 2)
        else
          var (ok, w) := Copy(written, offset, size);
          Progress(ok, w, index - 2)
    else Progress(true, [c[index - 1]] + written, index - 1)
  }

  /** Up to n tokens under a control byte. */
  function Group(c: seq<u8>, stop: nat, total: nat, control: nat, n: nat, index: nat, written: seq<u8>): (p: Progress)
    requires index <= |c| && |written| <= total
    ensures p.index <= index && |p.written| <= total
    decreases n
  {
    if n == 0 || index <= stop || index == 0 || |written| == total then Progress(true, written, index)
    else
      var p := ReadToken(c, total, control, index, written);
      if p.ok then Group(c, stop, total, control * 2 % 256, n - 1, p.index, p.written) else p
  }

  function Groups(c: seq<u8>, stop: nat, total: nat, index: nat, written: seq<u8>): (p: Progress)
    requires index <= |c| && |written| <= total
    ensures |p.written| <= total
    decreases index
  {
    if index <= stop then Progress(true, written, index)
    else
      var p := Group(c, stop, total, c[index - 1], 8, index - 1, written);
      if p.ok then Groups(c, stop, total, p.index, p.written) else p
  }

  // ---- The footer --------------------------------------------------------

  function Read32At(c: seq<u8>, i: nat): u32
    requires i + 4 <= |c|
  {
    LittleWord(c[i..i + 4])
  }

  function TopOf(c: seq<u8>): nat
    requires |c| >= 8
  {
    Read32At(c, |c| - 8) / 0x100_0000
  }

  function BottomOf(c: seq<u8>): nat
    requires |c| >= 8
  {
    Read32At(c, |c| - 8) % 0x100_0000
  }

  /** GetDecompressedSize */
  function DecompressedSize(c: seq<u8>): u32
    requires 8 <= |c| < TWO32
  {
    Wrap(Read32At(c, |c| - 4) + |c|)
  }

  /** The output buffer before decoding: the compressed bytes, then zeros. */
  function Blank(c: seq<u8>, total: nat): (s: seq<u8>)
    requires |c| <= total
    ensures |s| == total
  {
    c + seq(total - |c|, _ => 0)
  }

  function Decoded(c: seq<u8>, total: nat): Progress
    requires 8 <= |c| < TWO32 && TopOf(c) <= |c|
  {
    Groups(c, Wrap(|c| - BottomOf(c)), total, |c| - TopOf(c), [])
  }

  // ---- The loader's loops ------------------------------------------------

  /** `decompressed[--out] = data` */
  method Emit(decompressed: array<u8>, out: nat, data: u8)
    requires 0 < out <= decompressed.Length
    modifies decompressed
    ensures decompressed[out - 1..] == [data] + old(decompressed[out..])
    ensures decompressed[..out - 1] == old(decompressed[..out - 1])
  {
    decompressed[out - 1] := data;
  }

  method Fill(decompressed: array<u8>, compressed: seq<u8>)
    requires |compressed| <= decompressed.Length
    modifies decompressed
    ensures decompressed[..] == Blank(compressed, decompressed.Length)
  {
    for i := 0 to decompressed.Length
      invariant forall k :: 0 <= k < i ==> decompressed[k] == 0
    {
      decompressed[i] := 0;
    }
    for i := 0 to |compressed|
      invariant forall k :: 0 <= k < i ==> decompressed[k] == compressed[k]
      invariant forall k :: |compressed| <= k < decompressed.Length ==> decompressed[k] == 0
    {
      decompressed[i] := compressed[i];
    }
  }

  /** The inner loop of a match. Its bytes come from above `out`, so from what has been written before. */
  method CopyMatch(decompressed: array<u8>, start: nat, offset: nat, size: nat) returns (ok: bool, out: nat)
    requires size <= start <= decompressed.Length && decompressed.Length + 0x1001 <= TWO32 && offset <= 0x1001
    modifies decompressed
    ensures out <= start && decompressed[..out] == old(decompressed[..out])
    ensures (ok, decompressed[out..]) == Copy(old(decompressed[start..]), offset, size)
    ensures ok ==> out == start - size && decompressed[start..] == old(decompressed[start..])
    ensures ok && size > 0 ==> var d := offset + 1;
      start + d <= decompressed.Length && decompressed[out..start] == decompressed[out + d..start + d]
  {
    hide Wrap, Copy;
    out := start;
    var j := 0;
    CopyStep(decompressed[start..], offset, 0);
    while j < size
      invariant 0 <= j <= size && out == start - j && decompressed[..out] == old(decompressed[..out])
      invariant Copy(decompressed[out..], offset, size - j) == Copy(old(decompressed[start..]), offset, size)
    {
      CopyStep(decompressed[out..], offset, size - j);
      if out + offset >= decompressed.Length {
        return false, out;
      }
      Emit(decompressed, out, decompressed[out + offset]);
      out := out - 1;
      j := j + 1;
    }
    CopyStep(decompressed[out..], offset, 0);
    ok := true;
    CopiedAbove(decompressed[..], out, old(decompressed[start..]), offset, size);
    assert decompressed[start..] == decompressed[..][start..];
  }

  lemma CopyStep(written: seq<u8>, offset: nat, n: nat)
    ensures Copy(written, offset, n) ==
      if n == 0 then (true, written)
      else if offset >= |written| then (false, written)
      else Copy([written[offset]] + written, offset, n - 1)
  {
  }

  /** The copy as it lies in the buffer. */
  lemma CopiedAbove(buffer: seq<u8>, out: nat, written: seq<u8>, offset: nat, n: nat)
    requires out <= |buffer| && Copy(written, offset, n) == (true, buffer[out..])
    ensures var start, d := out + n, offset + 1;
      && start <= |buffer| && buffer[start..] == written
      && (n > 0 ==> start + d <= |buffer| && buffer[out..start] == buffer[out + d..start + d])
  {
    hide Copy;
    CopyRepeats(written, offset, n);
    var w, d := buffer[out..], offset + 1;
    if n > 0 { assert w[..n] == buffer[out..out + n] && w[d..d + n] == buffer[out + d..out + n + d]; }
  }

  /** One turn of the token loop. */
  method DecodeToken(compressed: seq<u8>, decompressed: array<u8>, control: nat, start: nat, top: nat)
    returns (ok: bool, index: nat, out: nat)
    requires 1 <= start <= |compressed| && 1 <= top <= decompressed.Length && decompressed.Length + 0x1001 <= TWO32
    modifies decompressed
    ensures index <= start && out <= top && decompressed[..out] == old(decompressed[..out])
    ensures Progress(ok, decompressed[out..], index)
      == ReadToken(compressed, decompressed.Length, control, start, old(decompressed[top..]))
  {
    hide Copy;
    ok, index, out := true, start, top;
    if control >= 128 {
      if index < 2 { return false, index, out; }
      index := index - 2;
      var field := compressed[index] as nat + 256 * (compressed[index + 1] as nat);
      if out < field / 4096 + 3 { return false, index, out; }
      FieldBound(field);
      ok, out := CopyMatch(decompressed, out, field % 4096 + 2, field / 4096 + 3);
    } else {
      index := index - 1;
      Emit(decompressed, out, compressed[index]);
      out := out - 1;
    }
  }

  lemma FieldBound(x: nat)
    ensures x % 4096 + 2 <= 0x1001
  {
  }

  /** The token loop under one control byte. */
  method DecodeGroup(compressed: seq<u8>, stop: u32, decompressed: array<u8>, first: nat, start: nat, top: nat)
    returns (ok: bool, index: nat, out: nat)
    requires start <= |compressed| && top <= decompressed.Length && decompressed.Length + 0x1001 <= TWO32
    modifies decompressed
    ensures index <= start && out <= top && decompressed[..out] == old(decompressed[..out])
    ensures Progress(ok, decompressed[out..], index)
      == Group(compressed, stop, decompressed.Length, first, 8, start, old(decompressed[top..]))
  {
    hide ReadToken;
    ok, index, out := true, start, top;
    var control := first;
    var i := 0;
    while i < 8
      invariant 0 <= i <= 8 && index <= start && out <= top && decompressed[..out] == old(decompressed[..out])
      invariant Group(compressed, stop, decompressed.Length, control, 8 - i, index, decompressed[out..])
        == Group(compressed, stop, decompressed.Length, first, 8, start, old(decompressed[top..]))
    {
      if index <= stop { return true, index, out; }
      if index <= 0 { return true, index, out; }
      if out <= 0 { return true, index, out; }
      ok, index, out := DecodeToken(compressed, decompressed, control, index, out);
      if !ok { return; }
      control := control * 2 % 256;
      i := i + 1;
    }
  }

  /** Decompress. Every index stays inside the buffers, the loop ends, and whether or not the input is valid, the
      output is what the decoder makes of the input, above the initial copy of the input. */
  method Decompress(compressed: seq<u8>, decompressed: array<u8>) returns (r: int)
    requires 8 <= |compressed| <= decompressed.Length && decompressed.Length + 0x1001 <= TWO32
    requires TopOf(compressed) <= |compressed|
    modifies decompressed
    ensures var p := Decoded(compressed, decompressed.Length);
      && r == (if p.ok then 1 else 0)
      && decompressed[..] == Blank(compressed, decompressed.Length)[..decompressed.Length - |p.written|] + p.written
  {
    hide Group, Groups, Read32At;
    var bufferTopAndBottom := Read32At(compressed, |compressed| - 8);
    var out: nat := decompressed.Length;
    var index: nat := |compressed| - bufferTopAndBottom / 0x100_0000;
    var stopIndex := Wrap(|compressed| - bufferTopAndBottom % 0x100_0000);
    Fill(decompressed, compressed);
    ghost var blank := decompressed[..];
    ghost var total := decompressed.Length;
    assert decompressed[out..] == [];
    var ok := true;
    while ok && index > stopIndex
      invariant index <= |compressed| && out <= decompressed.Length && decompressed[..out] == blank[..out]
      invariant Decoded(compressed, total) ==
        if ok then Groups(compressed, stopIndex, total, index, decompressed[out..])
        else Progress(false, decompressed[out..], index)
      decreases index, ok
    {
      GroupsStep(compressed, stopIndex, total, index, decompressed[out..]);
      index := index - 1;
      ok, index, out := DecodeGroup(compressed, stopIndex, decompressed, compressed[index], index, out);
    }
    if ok { GroupsStep(compressed, stopIndex, total, index, decompressed[out..]); }
    assert decompressed[..] == decompressed[..out] + decompressed[out..];
    r := if ok then 1 else 0;
  }

  lemma GroupsStep(c: seq<u8>, stop: nat, total: nat, index: nat, written: seq<u8>)
    requires index <= |c| && |written| <= total
    ensures index <= stop ==> Groups(c, stop, total, index, written) == Progress(true, written, index)
    ensures index > stop ==>
      var p := Group(c, stop, total, c[index - 1], 8, index - 1, written);
      Groups(c, stop, total, index, written) == if p.ok then Groups(c, stop, total, p.index, p.written) else p
  {
  }

  // ---- The format --------------------------------------------------------

  /** A literal byte, or a match: how far above the output it starts and how long it is, less the minimum of each. */
  datatype Token = Literal(b: u8) | Match(distance: nat, length: nat)

  predicate Fits(t: Token) { t.Match? ==> t.distance < 4096 && t.length < 16 }

  predicate AllFit(tokens: seq<Token>) { forall k :: 0 <= k < |tokens| ==> Fits(tokens[k]) }

  /** What one token adds to the output. */
  function Apply(t: Token, written: seq<u8>): (r: (bool, seq<u8>))
    ensures |written| <= |r.1| && (r.0 ==> |written| < |r.1|)
  {
    match t
    case Literal(b) => (true, [b] + written)
    case Match(distance, length) => Copy(written, distance + 2, length + 3)
  }

  /** What tokens stand for, written from the end of the output towards its start. */
  function Expand(tokens: seq<Token>, written: seq<u8>): (r: (bool, seq<u8>))
    ensures |written| <= |r.1|
  {
    if tokens == [] then (true, written)
    else
      var (ok, w) := Apply(tokens[0], written);
      if ok then Expand(tokens[1..], w) else (false, w)
  }

  function TokenBytes(t: Token): (s: seq<u8>)
    requires Fits(t)
    ensures |s| == if t.Match? then 2 else 1
  {
    match t
    case Literal(b) => [b]
    case Match(distance, length) => Bytes(distance + 4096 * length, 2)
  }

  /** The first token is stored last, where the decoder reads first. */
  function Body(tokens: seq<Token>): seq<u8>
    requires AllFit(tokens)
  {
    if tokens == [] then [] else Body(tokens[1..]) + TokenBytes(tokens[0])
  }

  /** The control bits of a group of at most n tokens, the first token's on top. */
  function Control(tokens: seq<Token>, n: nat): (c: nat)
    ensures c < Pow2(n)
    decreases n
  {
    if n == 0 || tokens == [] then 0 else (if tokens[0].Match? then Pow2(n - 1) else 0) + Control(tokens[1..], n - 1)
  }

  function ControlByte(tokens: seq<Token>): (c: u8)
  {
    Pow2At32();
    Control(tokens, 8)
  }

  /** The packed form of a token list: groups of eight, the last one possibly shorter. */
  function Packed(tokens: seq<Token>): seq<u8>
    requires AllFit(tokens)
  {
    if tokens == [] then []
    else if |tokens| <= 8 then Body(tokens) + [ControlByte(tokens)]
    else Packed(tokens[8..]) + Body(tokens[..8]) + [ControlByte(tokens[..8])]
  }

  // ---- Decoding what was packed ------------------------------------------

  /** With n tokens of its group to go, the control byte has been shifted up by the tokens before. */
  lemma ControlShifts(tokens: seq<Token>, n: nat)
    requires 0 < |tokens| <= n <= 8
    ensures var control := Control(tokens, n) * Pow2(8 - n);
      && (control >= 128 <==> tokens[0].Match?)
      && control * 2 % 256 == Control(tokens[1..], n - 1) * Pow2(8 - (n - 1))
  {
    hide Pow2;
    Pow2At32();
    Pow2Sum(n - 1, 8 - n);
    Pow2Sum(8 - n, 1);
    Pow2Sum(7, 1);
    ControlStep(tokens[0].Match?, Pow2(n - 1), Pow2(8 - n), Control(tokens[1..], n - 1));
  }

  lemma ControlStep(m: bool, p: nat, q: nat, b: nat)
    requires p * q == 128 && b < p && q >= 1
    ensures var control := ((if m then p else 0) + b) * q;
      (control >= 128 <==> m) && control * 2 % 256 == b * (2 * q)
  {
    assert b * q <= (p - 1) * q == p * q - q;
    if m {
      assert (p + b) * q == 128 + b * q;
    }
    assert b * (2 * q) == 2 * (b * q);
  }

  /** A token is read back by one turn of the token loop. */
  lemma ReadsToken(c: seq<u8>, total: nat, control: nat, index: nat, written: seq<u8>, t: Token)
    requires Fits(t) && (control >= 128 <==> t.Match?)
    requires |TokenBytes(t)| <= index <= |c| && c[index - |TokenBytes(t)|..index] == TokenBytes(t)
    requires Apply(t, written).0 && |Apply(t, written).1| <= total
    ensures |written| < total
    ensures ReadToken(c, total, control, index, written) == Progress(true, Apply(t, written).1, index - |TokenBytes(t)|)
  {
    hide Copy, Bytes;
    match t {
      case Literal(b) =>
        assert c[index - 1..index][0] == b;
      case Match(distance, length) =>
        var s := c[index - 2..index];
        assert s[0] == c[index - 2] && s[1] == c[index - 1];
        FieldIsRead(distance, length);
    }
  }

  lemma FieldIsRead(distance: nat, length: nat)
    requires distance < 4096 && length < 16
    ensures var s := Bytes(distance + 4096 * length, 2); var x := s[0] as nat + 256 * (s[1] as nat);
      x / 4096 == length && x % 4096 == distance
  {
    hide Pow2, Bytes;
    var x := distance + 4096 * length;
    LittleOfBytes(x, 2);
    TwoLittle(Bytes(x, 2));
    Pow2At32();
    Pow2Sum(8, 8);
    DivUnique(x, 4096, length, distance);
  }

  /** A sequence that ends in s + t ends in t, with s before it. */
  lemma SplitEnd(c: seq<u8>, lo: nat, index: nat, s: seq<u8>, t: seq<u8>)
    requires lo <= index <= |c| && c[lo..index] == s + t
    ensures |s| + |t| == index - lo
    ensures c[lo..index - |t|] == s && c[index - |t|..index] == t
  {
    assert s == (s + t)[..|s|] && t == (s + t)[|s|..];
  }

  /** A group is decoded to what its tokens stand for. */
  lemma {:induction false} GroupDecodes(c: seq<u8>, stop: nat, total: nat, n: nat, lo: nat, index: nat,
      written: seq<u8>, tokens: seq<Token>)
    requires |tokens| <= n <= 8 && AllFit(tokens) && (|tokens| < n ==> lo == stop)
    requires stop <= lo <= index <= |c| && c[lo..index] == Body(tokens)
    requires Expand(tokens, written).0 && |Expand(tokens, written).1| <= total
    ensures Group(c, stop, total, Control(tokens, n) * Pow2(8 - n), n, index, written)
      == Progress(true, Expand(tokens, written).1, lo)
    decreases n
  {
    hide ReadToken, Apply, TokenBytes, Control, Pow2;
    if tokens != [] {
      var t, rest, w := tokens[0], tokens[1..], Apply(tokens[0], written).1;
      assert Body(tokens) == Body(rest) + TokenBytes(t);
      SplitEnd(c, lo, index, Body(rest), TokenBytes(t));
      ControlShifts(tokens, n);
      ReadsToken(c, total, Control(tokens, n) * Pow2(8 - n), index, written, t);
      GroupDecodes(c, stop, total, n - 1, lo, index - |TokenBytes(t)|, w, rest);
    }
  }

  lemma {:induction false} ExpandSplit(first: seq<Token>, rest: seq<Token>, written: seq<u8>)
    requires Expand(first + rest, written).0
    ensures Expand(first, written).0
    ensures Expand(first + rest, written) == Expand(rest, Expand(first, written).1)
  {
    hide Apply;
    if first == [] {
      assert first + rest == rest;
    } else {
      assert (first + rest)[1..] == first[1..] + rest;
      ExpandSplit(first[1..], rest, Apply(first[0], written).1);
    }
  }

  /** How many bytes a token stands for. */
  function TokenLength(t: Token): (n: nat)
    ensures n > 0
  {
    match t case Literal(_) => 1 case Match(_, length) => length + 3
  }

  function Length(tokens: seq<Token>): nat {
    if tokens == [] then 0 else Length(tokens[..|tokens| - 1]) + TokenLength(tokens[|tokens| - 1])
  }

  /** One more token: what it adds comes before what there was. */
  lemma NextToken(tokens: seq<Token>, t: Token)
    requires Expand(tokens + [t], []).0
    ensures Expand(tokens, []).0
    ensures var e, w := Expand(tokens, []).1, Expand(tokens + [t], []).1; var n := TokenLength(t);
      && |w| == |e| + n && w[n..] == e
      && match t
         case Literal(b) => w[0] == b
         case Match(distance, _) =>
           var d := distance + 3;
           n + d <= |w| && w[..n] == w[d..d + n]
  {
    ExpandSplit(tokens, [t], []);
    var e := Expand(tokens, []).1;
    OneToken(t, e);
    if t.Match? { CopyRepeats(e, t.distance + 2, t.length + 3); }
  }

  lemma OneToken(t: Token, e: seq<u8>)
    requires Expand([t], e).0
    ensures Expand([t], e) == Apply(t, e)
  {
    hide Apply;
    assert [t][1..] == [];
  }

  /** Does the output e hold what a token stands for at lo? A literal is its byte; each byte of a match equals the one
      that is its distance (the stored one and three) above it. */
  predicate HoldsToken(e: seq<u8>, t: Token, lo: nat) {
    lo + TokenLength(t) <= |e| &&
    match t
    case Literal(b) => e[lo] == b
    case Match(distance, length) =>
      var hi, d := lo + length + 3, distance + 3;
      hi + d <= |e| && e[lo..hi] == e[lo + d..hi + d]
  }

  lemma HoldsTokenBelow(e: seq<u8>, w: seq<u8>, t: Token, n: nat, lo: nat)
    requires n <= |w| && w[n..] == e && HoldsToken(e, t, lo)
    ensures HoldsToken(w, t, n + lo)
  {
    match t {
      case Literal(b) =>
        assert w[n..][lo] == w[n + lo];
      case Match(distance, length) =>
        var hi, d := lo + length + 3, distance + 3;
        LowerSlice(w, n, lo, hi);
        LowerSlice(w, n, lo + d, hi + d);
    }
  }

  lemma LowerSlice(w: seq<u8>, n: nat, lo: nat, hi: nat)
    requires n <= |w| && lo <= hi <= |w| - n
    ensures w[n..][lo..hi] == w[n + lo..n + hi]
  {
  }

  predicate HoldsAt(e: seq<u8>, tokens: seq<Token>, i: nat)
    requires i < |tokens|
  {
    Length(tokens[..i + 1]) <= |e| && HoldsToken(e, tokens[i], |e| - Length(tokens[..i + 1]))
  }

  /** What a token list stands for, from its end: every token's bytes are where the lengths of the tokens before it put
      them. */
  lemma {:induction false} ExpansionMeans(tokens: seq<Token>, i: nat)
    requires Expand(tokens, []).0 && i < |tokens|
    ensures var e := Expand(tokens, []).1;
      |e| == Length(tokens) && HoldsAt(e, tokens, i)
    decreases |tokens|
  {
    hide Expand, TokenLength, HoldsToken;
    var last := |tokens| - 1;
    var first, t := tokens[..last], tokens[last];
    assert tokens == first + [t] && tokens[..|tokens|] == tokens;
    NextToken(first, t);
    ExpandedLength(first);
    var e, w := Expand(first, []).1, Expand(tokens, []).1;
    if i < last {
      ExpansionMeans(first, i);
      assert first[..i + 1] == tokens[..i + 1];
      HoldsTokenBelow(e, w, tokens[i], TokenLength(t), |e| - Length(tokens[..i + 1]));
    } else {
      FirstHolds(w, t);
    }
  }

  /** Does the output end with what the tokens stand for? */
  predicate HoldsTokens(e: seq<u8>, tokens: seq<Token>) {
    forall i :: 0 <= i < |tokens| ==> HoldsAt(e, tokens, i)
  }

  lemma AllTokensHeld(kept: seq<u8>, tokens: seq<Token>)
    requires Expand(tokens, []).0
    ensures HoldsTokens(kept + Expand(tokens, []).1, tokens)
  {
    hide Expand, HoldsToken, Length;
    var e := Expand(tokens, []).1;
    assert (kept + e)[|kept|..] == e;
    forall i | 0 <= i < |tokens|
      ensures HoldsAt(kept + e, tokens, i)
    {
      ExpansionMeans(tokens, i);
      HoldsTokenBelow(e, kept + e, tokens[i], |kept|, |e| - Length(tokens[..i + 1]));
    }
  }

  lemma FirstHolds(w: seq<u8>, t: Token)
    requires var n := TokenLength(t);
      n <= |w| && match t
        case Literal(b) => w[0] == b
        case Match(distance, _) => var d := distance + 3; n + d <= |w| && w[..n] == w[d..d + n]
    ensures HoldsToken(w, t, 0)
  {
  }

  lemma {:induction false} ExpandedLength(tokens: seq<Token>)
    requires Expand(tokens, []).0
    ensures |Expand(tokens, []).1| == Length(tokens)
  {
    hide Expand, TokenLength;
    if tokens == [] {
      NothingExpanded();
    } else {
      var last := |tokens| - 1;
      assert tokens == tokens[..last] + [tokens[last]];
      NextToken(tokens[..last], tokens[last]);
      ExpandedLength(tokens[..last]);
    }
  }

  lemma NothingExpanded()
    ensures Expand([], []) == (true, [])
  {
  }

  /** One group with its control byte. */
  lemma GroupWithControl(c: seq<u8>, stop: nat, total: nat, lo: nat, index: nat, written: seq<u8>, tokens: seq<Token>)
    requires 0 < |tokens| <= 8 && AllFit(tokens) && (|tokens| < 8 ==> lo == stop)
    requires stop <= lo <= index <= |c| && c[lo..index] == Body(tokens) + [ControlByte(tokens)]
    requires Expand(tokens, written).0 && |Expand(tokens, written).1| <= total
    ensures index > stop
    ensures Groups(c, stop, total, index, written) == Groups(c, stop, total, lo, Expand(tokens, written).1)
  {
    hide Group, Expand, Control, Body;
    SplitEnd(c, lo, index, Body(tokens), [ControlByte(tokens)]);
    assert c[index - 1..index][0] == c[index - 1];
    assert Pow2(8 - 8) == 1;
    GroupDecodes(c, stop, total, 8, lo, index - 1, written, tokens);
  }

  /** The packed form of a token list is decoded to what the tokens stand for. */
  lemma {:induction false} PackedDecodes(c: seq<u8>, stop: nat, total: nat, index: nat, written: seq<u8>,
                                         tokens: seq<Token>)
    requires AllFit(tokens) && stop <= index <= |c| && c[stop..index] == Packed(tokens)
    requires Expand(tokens, written).0 && |Expand(tokens, written).1| <= total
    ensures Groups(c, stop, total, index, written) == Progress(true, Expand(tokens, written).1, stop)
    decreases |tokens|
  {
    hide Group, ControlByte, Body;
    if tokens == [] {
    } else if |tokens| <= 8 {
      GroupWithControl(c, stop, total, stop, index, written, tokens);
    } else {
      var first, rest := tokens[..8], tokens[8..];
      assert tokens == first + rest;
      ExpandSplit(first, rest, written);
      var packed, group := Packed(rest), Body(first) + [ControlByte(first)];
      assert c[stop..index] == packed + group;
      SplitEnd(c, stop, index, packed, group);
      GroupWithControl(c, stop, total, index - |group|, index, written, first);
      PackedDecodes(c, stop, total, index - |group|, Expand(first, written).1, rest);
    }
  }

  /** A packed file: bytes kept as they are, packed tokens, and a footer of at least eight bytes, whose size and whose
      distance from the kept bytes it records. */
  predicate IsPackedFile(c: seq<u8>, kept: seq<u8>, tokens: seq<Token>, footer: seq<u8>) {
    && AllFit(tokens) && c == kept + Packed(tokens) + footer
    && 8 <= |footer| <= 255 && |c| < TWO32
    && TopOf(c) == |footer| && BottomOf(c) == |footer| + |Packed(tokens)|
  }

  /** Decompressing a packed file gives the kept bytes followed by what the tokens stand for. */
  lemma DecompressesPackedFile(c: seq<u8>, kept: seq<u8>, tokens: seq<Token>, footer: seq<u8>, total: nat)
    requires IsPackedFile(c, kept, tokens, footer)
    requires Expand(tokens, []).0 && total == |kept| + |Expand(tokens, []).1| && |c| <= total
    ensures var p := Decoded(c, total);
      p.ok && Blank(c, total)[..total - |p.written|] + p.written == kept + Expand(tokens, []).1
  {
    hide Groups, Packed, Expand, TopOf, BottomOf;
    var stop, index := |kept|, |kept| + |Packed(tokens)|;
    WrapSmall(|c| - BottomOf(c));
    assert c[stop..index] == Packed(tokens);
    PackedDecodes(c, stop, total, index, [], tokens);
    assert Blank(c, total)[..stop] == kept;
  }

  /** The size that the footer promises is the size of the output, if its second word is the difference. */
  lemma FooterGivesSize(c: seq<u8>, total: u32)
    requires 8 <= |c| < TWO32
    ensures DecompressedSize(c) == total <==> Read32At(c, |c| - 4) == Wrap(total - |c|)
  {
    hide Read32At;
    SizeMeans(Read32At(c, |c| - 4), |c|, total);
  }

  lemma SizeMeans(x: u32, n: u32, total: u32)
    ensures Wrap(x + n) == total <==> x == Wrap(total - n)
  {
  }

  /** The packed file of kept bytes and tokens, for an output of a given size: the footer is padding, a word with the
      distance from its end to the kept bytes in its lower 24 bits and its own length above them, and the difference of
      the sizes. */
  function PackedFile(kept: seq<u8>, tokens: seq<Token>, padding: seq<u8>, total: u32): seq<u8>
    requires AllFit(tokens)
  {
    var n := |padding| + 8;
    kept + Packed(tokens)
    + (padding + (Bytes(n + |Packed(tokens)| + 0x100_0000 * n, 4)
                  + Bytes(Wrap(total - |kept| - |Packed(tokens)| - n), 4)))
  }

  lemma PackedFileIsPacked(kept: seq<u8>, tokens: seq<Token>, padding: seq<u8>, total: u32)
    requires AllFit(tokens) && |padding| < 248 && |padding| + 8 + |Packed(tokens)| < 0x100_0000
    requires |kept| + |Packed(tokens)| + |padding| + 8 < TWO32
    ensures var c := PackedFile(kept, tokens, padding, total);
      && 8 <= |c| && IsPackedFile(c, kept, tokens, c[|kept| + |Packed(tokens)|..])
      && Read32At(c, |c| - 4) == Wrap(total - |c|)
  {
    hide Packed, Bytes, LittleWord, Wrap;
    var n, m := |padding| + 8, |Packed(tokens)|;
    var x, y := n + m + 0x100_0000 * n, Wrap(total - |kept| - m - n);
    var c := PackedFile(kept, tokens, padding, total);
    var body := kept + Packed(tokens) + padding;
    assert c == body + Bytes(x, 4) + Bytes(y, 4);
    assert c[|c| - 8..|c| - 8 + 4] == Bytes(x, 4) && c[|c| - 4..|c| - 4 + 4] == Bytes(y, 4);
    LittleWordOfBytes(x);
    LittleWordOfBytes(y);
    DivUnique(x, 0x100_0000, n, n + m);
    assert c == kept + Packed(tokens) + c[|kept| + m..];
  }

  /** The loader's use of both: a buffer of the size that the footer promises receives the section, and for a packed
      file with the right sizes it holds the kept bytes and what the tokens stand for. */
  method DecompressSection(sec: seq<u8>, ghost kept: seq<u8>, ghost tokens: seq<Token>, ghost footer: seq<u8>)
    returns (r: int, dec: array<u8>)
    requires IsPackedFile(sec, kept, tokens, footer) && Expand(tokens, []).0
    requires var total := |kept| + |Expand(tokens, []).1|;
      |sec| <= total && total + 0x1001 <= TWO32 && Read32At(sec, |sec| - 4) == Wrap(total - |sec|)
    ensures r == 1 && dec[..] == kept + Expand(tokens, []).1
    ensures HoldsTokens(dec[..], tokens)
  {
    hide Decoded, Expand, Packed, Blank, Read32At, TopOf, BottomOf, DecompressedSize, Wrap, HoldsTokens;
    ghost var total := |kept| + |Expand(tokens, []).1|;
    FooterGivesSize(sec, total);
    dec := new u8[DecompressedSize(sec)];
    DecompressesPackedFile(sec, kept, tokens, footer, total);
    r := Decompress(sec, dec);
    AllTokensHeld(kept, tokens);
  }
}
