/** The packet framing and the register dump of src/gdb/gdbstub.c. */
module Packets {
  import opened Words
  import opened Memory

  const BUFMAX := 2048

  const DOLLAR: u8 := 0x24
  const HASH: u8 := 0x23
  const BREAK: u8 := 3

  // ---- Hexadecimal digits ------------------------------------------------

  /** hexchars[n] */
  function HexChar(n: nat): (c: u8)
    requires n < 16
  {
    if n < 10 then 0x30 + n else 0x61 + n - 10
  }

  /** The value of a digit, or -1. */
  function Hex(c: u8): (n: int)
    ensures -1 <= n < 16
  {
    if 0x61 <= c <= 0x66 then c - 0x61 + 10
    else if 0x30 <= c <= 0x39 then c - 0x30
    else if 0x41 <= c <= 0x46 then c - 0x41 + 10
    else -1
  }

  lemma HexOfChar(n: nat)
    requires n < 16
    ensures Hex(HexChar(n)) == n
  {
  }

  // ---- The packet reader -------------------------------------------------

  datatype ReadState = Idle | MidPacket | FirstChecksum | SecondChecksum

  /** The reader: the text collected so far, its checksum, and the checksum that was received. */
  datatype Reader = Reader(state: ReadState, text: seq<u8>, sum: u8, readSum: u8)

  /** A completed packet, with the verdict on its checksum, or a request to stop. */
  datatype Event = Packet(text: seq<u8>, matches: bool) | Break

  /** One byte. */
  function Feed(r: Reader, b: u8): (Reader, Option<Event>) {
    match r.state
    case Idle =>
      if b == DOLLAR then (r.(state := MidPacket, text := [], sum := 0), None)
      else if b == BREAK then (r.(text := [BREAK]), Some(Break))
      else (r, None)
    case MidPacket =>
      if b == HASH then (r.(state := FirstChecksum), None)
      else if |r.text| >= BUFMAX - 1 then (r.(state := Idle), None)
      else (r.(text := r.text + [b], sum := (r.sum + b) % 256), None)
    case FirstChecksum => (r.(state := SecondChecksum, readSum := Hex(b) * 16 % 256), None)
    case SecondChecksum =>
      var readSum := (r.readSum + Hex(b)) % 256;
      (r.(state := Idle, readSum := readSum), Some(Packet(r.text, readSum == r.sum)))
  }

  /** Bytes up to the first event; also what is left. */
  function Next(r: Reader, bytes: seq<u8>): (n: (Reader, Option<Event>, seq<u8>))
    ensures n.1.Some? ==> |n.2| < |bytes|
    ensures n.1.None? ==> n.2 == []
    decreases |bytes|
  {
    if bytes == [] then (r, None, [])
    else
      var (r', e) := Feed(r, bytes[0]);
      if e.Some? then (r', e, bytes[1..]) else Next(r', bytes[1..])
  }

  /** All the events of a byte stream. */
  function Events(r: Reader, bytes: seq<u8>): (Reader, seq<Event>)
    decreases |bytes|
  {
    var (r', e, rest) := Next(r, bytes);
    if e.None? then (r', []) else var (r'', es) := Events(r', rest); (r'', [e.value] + es)
  }

  // ---- Frames ------------------------------------------------------------

  function Sum(s: seq<u8>): u8 {
    if s == [] then 0 else (Sum(s[..|s| - 1]) + s[|s| - 1]) % 256
  }

  function Frame(payload: seq<u8>): seq<u8> {
    [DOLLAR] + payload + [HASH, HexChar(Sum(payload) / 16), HexChar(Sum(payload) % 16)]
  }

  /** A payload that can be framed. */
  predicate Payload(p: seq<u8>) { HASH !in p && |p| < BUFMAX }

  /** Bytes between frames. */
  predicate Junk(s: seq<u8>) { DOLLAR !in s && BREAK !in s }

  /** Reading in two pieces. */
  lemma {:induction false} NextSplit(r: Reader, a: seq<u8>, b: seq<u8>)
    requires Next(r, a).1.None?
    ensures Next(r, a + b) == Next(Next(r, a).0, b)
    decreases |a|
  {
    if a == [] {
      assert a + b == b;
    } else {
      assert (a + b)[0] == a[0] && (a + b)[1..] == a[1..] + b;
      NextSplit(Feed(r, a[0]).0, a[1..], b);
    }
  }

  lemma {:induction false} JunkIsIgnored(r: Reader, s: seq<u8>)
    requires r.state == Idle && Junk(s)
    ensures Next(r, s) == (r, None, [])
    decreases |s|
  {
    if s != [] { JunkIsIgnored(r, s[1..]); }
  }

  /** A payload is collected byte by byte. */
  lemma {:induction false} Collects(r: Reader, p: seq<u8>)
    requires r.state == MidPacket && r.text == [] && r.sum == 0 && Payload(p)
    ensures Next(r, p) == (r.(text := p, sum := Sum(p)), None, [])
    decreases |p|
  {
    if p != [] {
      var q, b := p[..|p| - 1], p[|p| - 1];
      assert p == q + [b];
      Collects(r, q);
      NextSplit(r, q, [b]);
      OneByte(r.(text := q, sum := Sum(q)), b);
    }
  }

  lemma OneByte(r: Reader, b: u8)
    ensures Next(r, [b]) == (Feed(r, b).0, Feed(r, b).1, [])
  {
    assert [b][1..] == [];
  }

  /** The checksum that two digits stand for. */
  function Received(high: u8, low: u8): u8 { (16 * Hex(high) + Hex(low)) % 256 }

  /** The end of a packet. */
  lemma Closes(r: Reader, high: u8, low: u8, rest: seq<u8>)
    requires r.state == MidPacket
    ensures Next(r, [HASH, high, low] + rest) ==
      (r.(state := Idle, readSum := Received(high, low)), Some(Packet(r.text, r.sum == Received(high, low))), rest)
  {
    hide Next, Hex;
    assert [HASH, high, low] + rest == [HASH] + ([high] + ([low] + rest));
    NextByte(r, HASH, [high] + ([low] + rest));
    NextByte(r.(state := FirstChecksum), high, [low] + rest);
    NextByte(r.(state := SecondChecksum, readSum := Hex(high) * 16 % 256), low, rest);
  }

  lemma OwnSum(sum: u8)
    ensures Received(HexChar(sum / 16), HexChar(sum % 16)) == sum
  {
    hide HexChar, Hex;
    HexOfChar(sum / 16);
    HexOfChar(sum % 16);
  }

  lemma NextByte(r: Reader, b: u8, rest: seq<u8>)
    ensures var (r', e) := Feed(r, b); Next(r, [b] + rest) == if e.Some? then (r', e, rest) else Next(r', rest)
  {
    hide Feed;
    assert ([b] + rest)[0] == b && ([b] + rest)[1..] == rest;
  }

  /** Junk and a packet, followed by anything: the next event is the payload, and it says whether the two digits are
      its checksum. */
  lemma PacketIsRead(r: Reader, junk: seq<u8>, p: seq<u8>, high: u8, low: u8, rest: seq<u8>)
    requires r.state == Idle && Junk(junk) && Payload(p)
    ensures Next(r, junk + ([DOLLAR] + p + [HASH, high, low]) + rest) ==
      (Reader(Idle, p, Sum(p), Received(high, low)), Some(Packet(p, Sum(p) == Received(high, low))), rest)
  {
    hide Payload, Junk, Feed, Next, Received, Sum;
    var tail := [HASH, high, low] + rest;
    assert junk + ([DOLLAR] + p + [HASH, high, low]) + rest == junk + ([DOLLAR] + (p + tail));
    JunkIsIgnored(r, junk);
    NextSplit(r, junk, [DOLLAR] + (p + tail));
    Opens(r, p + tail);
    var m := r.(state := MidPacket, text := [], sum := 0);
    Collects(m, p);
    NextSplit(m, p, tail);
    Closes(m.(text := p, sum := Sum(p)), high, low, rest);
  }

  /** The frame of "OK" is "$OK#9a". */
  lemma OkFrame()
    ensures Frame([0x4F, 0x4B]) == [0x24, 0x4F, 0x4B, 0x23, 0x39, 0x61]
  {
    assert [0x4F, 0x4B][..1] == [0x4F] && [0x4F][..0] == [];
    assert Sum([0x4F]) == 0x4F && Sum([0x4F, 0x4B]) == 0x9A;
  }

  /** A frame is read as its payload, with a matching checksum. */
  lemma FrameIsRead(r: Reader, junk: seq<u8>, p: seq<u8>, rest: seq<u8>)
    requires r.state == Idle && Junk(junk) && Payload(p)
    ensures Next(r, junk + Frame(p) + rest) == (Reader(Idle, p, Sum(p), Sum(p)), Some(Packet(p, true)), rest)
  {
    hide Payload, Junk, Next, Received, HexChar, Sum;
    OwnSum(Sum(p));
    PacketIsRead(r, junk, p, HexChar(Sum(p) / 16), HexChar(Sum(p) % 16), rest);
  }

  /** Between packets the byte 3 is a request to stop. */
  lemma BreakIsRead(r: Reader, junk: seq<u8>, rest: seq<u8>)
    requires r.state == Idle && Junk(junk)
    ensures Next(r, junk + [3] + rest) == (r.(text := [3]), Some(Break), rest)
  {
    hide Junk, Next;
    assert junk + [3] + rest == junk + ([3] + rest);
    JunkIsIgnored(r, junk);
    NextSplit(r, junk, [3] + rest);
    NextByte(r, 3, rest);
  }

  /** A packet whose text would not fit in the buffer is given up, and the next one can begin. */
  lemma LongPacketIsDropped(r: Reader, p: seq<u8>, b: u8)
    requires r.state == Idle && Payload(p) && |p| == 2047 && b != HASH
    ensures Next(r, [DOLLAR] + p + [b]) == (Reader(Idle, p, Sum(p), r.readSum), None, [])
  {
    hide Payload, Next, Sum;
    assert [DOLLAR] + p + [b] == [DOLLAR] + (p + [b]);
    Opens(r, p + [b]);
    var m := r.(state := MidPacket, text := [], sum := 0);
    Collects(m, p);
    NextSplit(m, p, [b]);
    OneByte(m.(text := p, sum := Sum(p)), b);
  }

  function Total(s: seq<u8>): nat { if s == [] then 0 else Total(s[..|s| - 1]) + s[|s| - 1] }

  /** The checksum is the sum of the bytes modulo 256. */
  lemma {:induction false} SumIsTotal(p: seq<u8>)
    ensures Sum(p) == Total(p) % 256
  {
    if p != [] {
      var last := |p| - 1;
      SumIsTotal(p[..last]);
      var x: int := Total(p[..last]);
      SameRemainder(x % 256 + p[last], x / 256, 256);
    }
  }

  lemma Opens(r: Reader, rest: seq<u8>)
    requires r.state == Idle
    ensures Next(r, [DOLLAR] + rest) == Next(r.(state := MidPacket, text := [], sum := 0), rest)
  {
    assert ([DOLLAR] + rest)[1..] == rest;
  }

  /** A stream of frames with junk before each. */
  function Stream(frames: seq<(seq<u8>, seq<u8>)>): seq<u8> {
    if frames == [] then [] else frames[0].0 + Frame(frames[0].1) + Stream(frames[1..])
  }

  /** A stream of frames is read as the sequence of its payloads, whatever the reader has read before. */
  lemma {:induction false} StreamIsRead(r: Reader, frames: seq<(seq<u8>, seq<u8>)>)
    requires r.state == Idle && forall k :: 0 <= k < |frames| ==> Junk(frames[k].0) && Payload(frames[k].1)
    ensures Events(r, Stream(frames)).1 == seq(|frames|, k requires 0 <= k < |frames| => Packet(frames[k].1, true))
    decreases |frames|
  {
    hide Next, Frame, Junk, Payload;
    if frames == [] {
      NothingRead(r);
    } else {
      var (junk, p) := frames[0];
      FrameIsRead(r, junk, p, Stream(frames[1..]));
      StreamIsRead(Reader(Idle, p, Sum(p), Sum(p)), frames[1..]);
    }
  }

  lemma NothingRead(r: Reader)
    ensures Next(r, []) == (r, None, [])
  {
  }

  // ---- The stub's reader and writer --------------------------------------

  class PacketReader {
    var state: ReadState
    const buffer: array<u8>
    var posIndex: int
    var checksum: u8
    var readChecksum: u8

    /** The index never leaves the buffer. */
    ghost predicate Valid()
      reads this
    {
      buffer.Length == BUFMAX && 0 <= posIndex <= BUFMAX - 1
    }

    ghost function View(): Reader
      requires Valid()
      reads this, buffer
    {
      Reader(state, buffer[..posIndex], checksum, readChecksum)
    }

    constructor ()
      ensures Valid() && fresh(buffer) && View().state == Idle
    {
      buffer := new u8[BUFMAX];
      state, posIndex, checksum, readChecksum := Idle, 0, 0, 0;
    }

    /** One turn of readPacket's loop. A completed text is followed by a zero in the buffer. */
    method Accept(b: u8) returns (e: Option<Event>)
      requires Valid()
      modifies this, buffer
      ensures Valid() && (View(), e) == Feed(old(View()), b)
      ensures state == FirstChecksum || e == Some(Break) ==> buffer[posIndex] == 0
    {
      e := None;
      match state
      case Idle =>
        if b == DOLLAR {
          state, posIndex, checksum := MidPacket, 0, 0;
          assert buffer[..posIndex] == [];
        } else if b == BREAK {
          buffer[0], buffer[1] := b, 0;
          posIndex := 1;
          assert buffer[..posIndex] == [BREAK];
          e := Some(Break);
        }
      case MidPacket =>
        if b == HASH {
          buffer[posIndex] := 0;
          state := FirstChecksum;
        } else if posIndex >= BUFMAX - 1 {
          state := Idle;
        } else {
          checksum := (checksum + b) % 256;
          buffer[posIndex] := b;
          posIndex := posIndex + 1;
          assert buffer[..posIndex] == old(buffer[..posIndex]) + [b];
        }
      case FirstChecksum =>
        readChecksum := Hex(b) * 16 % 256;
        state := SecondChecksum;
      case SecondChecksum =>
        readChecksum := (readChecksum + Hex(b)) % 256;
        state := Idle;
        e := Some(Packet(buffer[..posIndex], readChecksum == checksum));
    }

    /** readPacket_gdb: reads until there is an event or nothing more to read. */
    method ReadPacket(bytes: seq<u8>) returns (e: Option<Event>, used: nat)
      requires Valid()
      modifies this, buffer
      ensures Valid() && used <= |bytes| && (View(), e, bytes[used..]) == Next(old(View()), bytes)
    {
      hide Feed;
      used := 0;
      assert bytes[0..] == bytes;
      while used < |bytes|
        invariant 0 <= used <= |bytes| && Valid()
        invariant Next(View(), bytes[used..]) == Next(old(View()), bytes)
      {
        assert bytes[used..][0] == bytes[used] && bytes[used..][1..] == bytes[used + 1..];
        e := Accept(bytes[used]);
        used := used + 1;
        if e.Some? { return; }
      }
      e := None;
    }
  }

  /** putpacket, up to the sending: frames the payload that is already in its place in the buffer. */
  method PutPacket(buffer: array<u8>, size: nat) returns (count: nat)
    requires buffer.Length == BUFMAX && size + 5 <= BUFMAX
    modifies buffer
    ensures count == size + 4 && buffer[..count] == Frame(old(buffer[1..size + 1])) && buffer[count] == 0
  {
    hide HexChar, Sum;
    ghost var payload := buffer[1..size + 1];
    buffer[0] := DOLLAR;
    var checksum: u8 := 0;
    count := 0;
    NextSum(payload, 0);
    while count < size
      invariant 0 <= count <= size && buffer[0] == DOLLAR && buffer[1..size + 1] == payload
      invariant checksum == Sum(payload[..count])
    {
      NextSum(payload, count);
      assert payload[count] == buffer[1 + count];
      checksum := (checksum + buffer[1 + count]) % 256;
      count := count + 1;
    }
    assert payload[..count] == payload;
    CloseFrame(buffer, 1 + count, checksum);
    count := count + 4;
    assert buffer[..count] == [buffer[0]] + buffer[1..size + 1] + buffer[size + 1..size + 4];
  }

  lemma NextSum(p: seq<u8>, n: nat)
    ensures Sum(p[..0]) == 0
    ensures n < |p| ==> Sum(p[..n + 1]) == (Sum(p[..n]) + p[n]) % 256
  {
    if n < |p| { assert p[..n + 1][..n] == p[..n]; }
  }

  /** The three bytes after the payload, and the terminator. */
  method CloseFrame(buffer: array<u8>, at: nat, checksum: u8)
    requires at + 4 <= buffer.Length
    modifies buffer
    ensures buffer[at..at + 3] == [HASH, HexChar(checksum / 16), HexChar(checksum % 16)] && buffer[at + 3] == 0
    ensures buffer[..at] == old(buffer[..at])
  {
    hide HexChar;
    buffer[at] := HASH;
    buffer[at + 1] := HexChar(checksum / 16);
    buffer[at + 2] := HexChar(checksum % 16);
    buffer[at + 3] := 0;
  }
}
