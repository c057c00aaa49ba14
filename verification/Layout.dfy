/** Byte layout of messages and commands, as src/message.h declares them (x86-64 sizes and offsets).

    A message is a 12-byte header (req_id, req_size, status) followed by commands laid end to end; a
    command is a 4-byte type and an option record whose length depends on the type alone. */
module Layout {
  type byte = x: int | 0 <= x < 256
  type u32 = x: int | 0 <= x < 0x1_0000_0000
  type u64 = x: int | 0 <= x < 0x1_0000_0000_0000_0000

  const COMPUTE: u32 := 0
  const STORE: u32 := 1
  const LOAD: u32 := 2
  const PSKIP: u32 := 3
  const FORWARD_BEGIN: u32 := 4
  const FORWARD_CONTINUE: u32 := 5
  const REPLY: u32 := 6
  const EOM: u32 := 7

  const BUF_SIZE: nat := 16 * 1024 * 1024
  const MESSAGE_HEADER: nat := 12
  const REQ_SIZE_AT: nat := 4
  const COMMAND_HEADER: nat := 4
  const FWD_OPTS: nat := 24
  const DISK_OPTS: nat := 24
  const COMP_OPTS: nat := 4
  const REPLY_OPTS: nat := 12

  /** A type value outside the enumeration is kept as it is read: it has the size of a bare command. */
  datatype Command = Command(ctype: u32, opts: seq<byte>)

  function CmdTypeSize(t: u32): (n: nat)
    ensures n >= COMMAND_HEADER
  {
    if t == REPLY then COMMAND_HEADER + REPLY_OPTS
    else if t == FORWARD_BEGIN || t == FORWARD_CONTINUE then COMMAND_HEADER + FWD_OPTS
    else if t == COMPUTE then COMMAND_HEADER + COMP_OPTS
    else if t == LOAD || t == STORE then COMMAND_HEADER + DISK_OPTS
    else COMMAND_HEADER
  }

  predicate Sized(c: Command) {
    |c.opts| + COMMAND_HEADER == CmdTypeSize(c.ctype)
  }

  const EomCommand := Command(EOM, [])

  // ---------- integers in memory (little endian) ----------

  function Put32(n: u32): (b: seq<byte>)
    ensures |b| == 4
  {
    [n % 256, n / 256 % 256, n / 65536 % 256, n / 16777216]
  }

  function Put64(n: u64): (b: seq<byte>)
    ensures |b| == 8
  {
    Put32(n % 0x1_0000_0000) + Put32(n / 0x1_0000_0000)
  }

  function Get32(b: seq<byte>, pos: nat): (n: u32)
    requires pos + 4 <= |b|
  {
    b[pos] as int + 256 * (b[pos + 1] as int) + 65536 * (b[pos + 2] as int) + 16777216 * (b[pos + 3] as int)
  }

  lemma {:induction false} PutGet(b: seq<byte>, pos: nat)
    requires pos + 4 <= |b|
    ensures Put32(Get32(b, pos)) == b[pos..pos + 4]
  {
    var n: int, h: int := Get32(b, pos), b[pos + 1] as int + 256 * (b[pos + 2] as int) + 65536 * (b[pos + 3] as int);
    assert n == 256 * h + b[pos];
    assert n / 256 == h && n % 256 == b[pos];
    var g: int := b[pos + 2] as int + 256 * (b[pos + 3] as int);
    assert h / 256 == g && h % 256 == b[pos + 1];
    assert n / 65536 == g && n / 16777216 == g / 256;
  }

  lemma {:induction false} GetPut(b: seq<byte>, pos: nat, n: u32)
    requires pos + 4 <= |b| && b[pos..pos + 4] == Put32(n)
    ensures Get32(b, pos) == n
  {
    var w := b[pos..pos + 4];
    assert b[pos] == w[0] && b[pos + 1] == w[1] && b[pos + 2] == w[2] && b[pos + 3] == w[3];
    assert n / 65536 == n / 256 / 256 && n / 16777216 == n / 256 / 256 / 256;
  }

  function Get64(b: seq<byte>, pos: nat): (n: u64)
    requires pos + 8 <= |b|
  {
    Get32(b, pos) + 0x1_0000_0000 * Get32(b, pos + 4)
  }

  lemma {:induction false} GetPut64(b: seq<byte>, pos: nat, n: u64)
    requires pos + 8 <= |b| && b[pos..pos + 8] == Put64(n)
    ensures Get64(b, pos) == n
  {
    hide Put32; hide Get32;
    var w := b[pos..pos + 8];
    assert b[pos..pos + 4] == w[0..4] == Put32(n % 0x1_0000_0000);
    assert b[pos + 4..pos + 8] == w[4..8] == Put32(n / 0x1_0000_0000);
    GetPut(b, pos, n % 0x1_0000_0000);
    GetPut(b, pos + 4, n / 0x1_0000_0000);
  }

  // ---------- encoding and decoding of command lists ----------

  function EncodedSize(cs: seq<Command>): nat {
    if cs == [] then 0 else CmdTypeSize(cs[0].ctype) + EncodedSize(cs[1..])
  }

  function EncodeCmd(c: Command): seq<byte> {
    Put32(c.ctype) + c.opts
  }

  function Encode(cs: seq<Command>): seq<byte> {
    if cs == [] then [] else EncodeCmd(cs[0]) + Encode(cs[1..])
  }

  /** cmd_in_bounds: first the type must be readable, then the options it calls for. */
  predicate InBounds(buf: seq<byte>, pos: nat, end: nat)
    requires end <= |buf|
  {
    pos + COMMAND_HEADER <= end && pos + CmdTypeSize(Get32(buf, pos)) <= end
  }

  function ReadCmd(buf: seq<byte>, pos: nat, end: nat): (c: Command)
    requires end <= |buf| && InBounds(buf, pos, end)
    ensures Sized(c)
  {
    var t := Get32(buf, pos);
    Command(t, buf[pos + COMMAND_HEADER..pos + CmdTypeSize(t)])
  }

  /** The commands a walk from `pos` can see: up to the first EOM, or to the last one inside the
      message. The empty list stands for a cursor that is out of bounds (the NULL of the C code). */
  function Decode(buf: seq<byte>, pos: nat, end: nat): (cs: seq<Command>)
    requires end <= |buf|
    decreases end - pos
  {
    if !InBounds(buf, pos, end) then [] else
    var c := ReadCmd(buf, pos, end);
    if c.ctype == EOM then [c] else [c] + Decode(buf, pos + CmdTypeSize(c.ctype), end)
  }

  /** EOM can only be the last command. */
  predicate EomOnlyLast(cs: seq<Command>) {
    forall i :: 0 <= i < |cs| - 1 ==> cs[i].ctype != EOM
  }

  predicate AllSized(cs: seq<Command>) {
    forall i :: 0 <= i < |cs| ==> Sized(cs[i])
  }

  lemma {:induction false} EncodeLength(cs: seq<Command>)
    requires AllSized(cs)
    ensures |Encode(cs)| == EncodedSize(cs)
  {
    if cs != [] { EncodeLength(cs[1..]); }
  }

  lemma {:induction false} EncodeCmdSize(c: Command)
    requires Sized(c)
    ensures |EncodeCmd(c)| == CmdTypeSize(c.ctype)
  {
  }

  lemma {:induction false} ConcatAssoc(a: seq<byte>, b: seq<byte>, c: seq<byte>)
    ensures a + (b + c) == (a + b) + c
  {
  }

  lemma {:induction false} EncodeAppend(a: seq<Command>, b: seq<Command>)
    ensures Encode(a + b) == Encode(a) + Encode(b)
    ensures EncodedSize(a + b) == EncodedSize(a) + EncodedSize(b)
  {
    hide EncodeCmd; hide CmdTypeSize;
    if a == [] {
      assert a + b == b;
    } else {
      EncodeAppend(a[1..], b);
      assert (a + b)[0] == a[0] && (a + b)[1..] == a[1..] + b;
      ConcatAssoc(EncodeCmd(a[0]), Encode(a[1..]), Encode(b));
    }
  }

  /** What is decoded is well formed and lies inside the message. */
  lemma {:induction false} DecodeShape(buf: seq<byte>, pos: nat, end: nat)
    requires end <= |buf|
    ensures AllSized(Decode(buf, pos, end)) && EomOnlyLast(Decode(buf, pos, end))
    ensures Decode(buf, pos, end) != [] ==> pos + EncodedSize(Decode(buf, pos, end)) <= end
    decreases end - pos
  {
    if InBounds(buf, pos, end) && ReadCmd(buf, pos, end).ctype != EOM {
      DecodeShape(buf, pos + CmdTypeSize(Get32(buf, pos)), end);
    }
  }

  lemma {:induction false} CommandBytes(buf: seq<byte>, pos: nat, end: nat)
    requires end <= |buf| && InBounds(buf, pos, end)
    ensures ReadCmd(buf, pos, end).ctype == Get32(buf, pos)
    ensures EncodeCmd(ReadCmd(buf, pos, end)) == buf[pos..pos + CmdTypeSize(Get32(buf, pos))]
  {
    PutGet(buf, pos);
  }

  lemma {:induction false} CommandReadBack(buf: seq<byte>, pos: nat, end: nat, c: Command)
    requires Sized(c) && pos + CmdTypeSize(c.ctype) <= end <= |buf|
    requires buf[pos..pos + CmdTypeSize(c.ctype)] == EncodeCmd(c)
    ensures InBounds(buf, pos, end) && ReadCmd(buf, pos, end) == c
  {
    var w := buf[pos..pos + CmdTypeSize(c.ctype)];
    assert buf[pos..pos + 4] == w[..4] == Put32(c.ctype);
    GetPut(buf, pos, c.ctype);
    assert buf[pos + 4..pos + CmdTypeSize(c.ctype)] == w[4..] == c.opts;
  }

  /** Decoding loses nothing: the bytes walked over are the encoding of the commands seen. */
  lemma {:induction false} EncodeDecode(buf: seq<byte>, pos: nat, end: nat)
    requires end <= |buf| && Decode(buf, pos, end) != []
    ensures pos + EncodedSize(Decode(buf, pos, end)) <= end
    ensures Encode(Decode(buf, pos, end)) == buf[pos..pos + EncodedSize(Decode(buf, pos, end))]
    decreases end - pos
  {
    hide Decode; hide Encode; hide EncodedSize; hide CmdTypeSize; hide ReadCmd; hide InBounds;
    DecodeStep(buf, pos, end);
    if Decode(buf, pos, end)[1..] != [] {
      EncodeDecode(buf, pos + CmdTypeSize(ReadCmd(buf, pos, end).ctype), end);
    }
    Decoded(buf, pos, end);
  }

  lemma {:induction false} Decoded(buf: seq<byte>, pos: nat, end: nat)
    requires end <= |buf| && Decode(buf, pos, end) != [] && InBounds(buf, pos, end)
    requires var rest := Decode(buf, pos, end)[1..];
      var next := pos + CmdTypeSize(ReadCmd(buf, pos, end).ctype);
      rest == [] || (rest == Decode(buf, next, end) && next + EncodedSize(rest) <= end
                     && Encode(rest) == buf[next..next + EncodedSize(rest)])
    ensures pos + EncodedSize(Decode(buf, pos, end)) <= end
    ensures Encode(Decode(buf, pos, end)) == buf[pos..pos + EncodedSize(Decode(buf, pos, end))]
  {
    hide EncodeCmd; hide Get32; hide CmdTypeSize; hide ReadCmd; hide Decode; hide InBounds;
    hide Encode; hide EncodedSize;
    var cs := Decode(buf, pos, end);
    DecodeStep(buf, pos, end);
    CommandBytes(buf, pos, end);
    EncodeStep(cs);
    if cs[1..] != [] {
      JoinTwo(buf, pos, CmdTypeSize(cs[0].ctype), EncodedSize(cs[1..]), EncodeCmd(cs[0]), Encode(cs[1..]));
    }
  }

  lemma {:induction false} EncodeStep(cs: seq<Command>)
    requires cs != []
    ensures Encode(cs) == EncodeCmd(cs[0]) + Encode(cs[1..])
    ensures EncodedSize(cs) == CmdTypeSize(cs[0].ctype) + EncodedSize(cs[1..])
    ensures cs[1..] == [] ==> Encode(cs) == EncodeCmd(cs[0]) && EncodedSize(cs) == CmdTypeSize(cs[0].ctype)
  {
  }

  lemma {:induction false} DecodeStep(buf: seq<byte>, pos: nat, end: nat)
    requires end <= |buf| && Decode(buf, pos, end) != []
    ensures InBounds(buf, pos, end)
    ensures var cs, c := Decode(buf, pos, end), ReadCmd(buf, pos, end);
      var next := pos + CmdTypeSize(c.ctype);
      cs[0] == c && next <= end && (cs[1..] == [] || cs[1..] == Decode(buf, next, end))
  {
    hide Get32; hide CmdTypeSize;
  }

  lemma {:induction false} JoinTwo(buf: seq<byte>, pos: nat, m: nat, n: nat, a: seq<byte>, b: seq<byte>)
    requires pos + m + n <= |buf| && a == buf[pos..pos + m] && b == buf[pos + m..pos + m + n]
    ensures a + b == buf[pos..pos + (m + n)]
  {
    JoinSlices(buf, pos, m, n);
  }

  lemma {:induction false} JoinSlices(buf: seq<byte>, pos: nat, m: nat, n: nat)
    requires pos + m + n <= |buf|
    ensures buf[pos..pos + m] + buf[pos + m..pos + m + n] == buf[pos..pos + (m + n)]
  {
  }

  lemma {:induction false} SplitSlice(buf: seq<byte>, pos: nat, a: seq<byte>, b: seq<byte>)
    requires pos + |a| + |b| <= |buf| && buf[pos..pos + |a| + |b|] == a + b
    ensures buf[pos..pos + |a|] == a && buf[pos + |a|..pos + |a| + |b|] == b
  {
    assert buf[pos..pos + |a|] == buf[pos..pos + |a| + |b|][..|a|];
    assert buf[pos + |a|..pos + |a| + |b|] == buf[pos..pos + |a| + |b|][|a|..];
  }

  /** Decoding inverts encoding: a list closed by its only EOM is read back exactly, whatever bytes follow it. */
  lemma {:induction false} DecodeEncode(buf: seq<byte>, pos: nat, end: nat, cs: seq<Command>)
    requires end <= |buf| && AllSized(cs) && EomOnlyLast(cs)
    requires cs != [] && cs[|cs| - 1].ctype == EOM
    requires pos + EncodedSize(cs) <= end
    requires buf[pos..pos + EncodedSize(cs)] == Encode(cs)
    ensures Decode(buf, pos, end) == cs
    decreases |cs|
  {
    hide Put32; hide Get32; hide EncodeCmd; hide CmdTypeSize; hide ReadCmd; hide InBounds;
    var c, rest := cs[0], cs[1..];
    assert Sized(c);
    EncodeCmdSize(c);
    EncodeLength(rest);
    SplitSlice(buf, pos, EncodeCmd(c), Encode(rest));
    CommandReadBack(buf, pos, end, c);
    if rest != [] {
      DecodeEncode(buf, pos + CmdTypeSize(c.ctype), end, rest);
    }
  }
}
