/** The pointer-walking loops of src/message.c and src/message.h, over the bytes of a message.

    Each loop is proved, on every buffer (well formed or not), to compute the list walk of Walk.dfy on the
    commands its cursor can see. */
module Message {
  import opened Layout
  import opened Walk

  datatype Cursor = Null | At(pos: nat)

  predicate ValidCursor(buf: seq<byte>, c: Cursor, end: nat)
    requires end <= |buf|
  {
    c.At? ==> InBounds(buf, c.pos, end)
  }

  /** The commands a cursor can see. */
  function View(buf: seq<byte>, c: Cursor, end: nat): (s: seq<Command>)
    requires end <= |buf|
    ensures ValidCursor(buf, c, end) ==> (s == [] <==> c.Null?)
  {
    if c.Null? then [] else Decode(buf, c.pos, end)
  }

  /** Where the commands seen from `pos` end; no walk changes it. */
  function Stop(buf: seq<byte>, pos: nat, end: nat): nat
    requires end <= |buf|
  {
    pos + EncodedSize(Decode(buf, pos, end))
  }

  ghost predicate Moved(buf: seq<byte>, from: Cursor, to: Cursor, end: nat)
    requires end <= |buf|
  {
    && ValidCursor(buf, to, end)
    && (to.At? ==> from.At? && from.pos <= to.pos && Stop(buf, to.pos, end) == Stop(buf, from.pos, end))
  }

  /** cmd_bounded_next. */
  function NextCmd(buf: seq<byte>, pos: nat, end: nat): (r: Cursor)
    requires end <= |buf| && InBounds(buf, pos, end)
    ensures ValidCursor(buf, r, end)
    ensures Get32(buf, pos) != EOM ==> View(buf, r, end) == Decode(buf, pos, end)[1..] && Moved(buf, At(pos), r, end)
    ensures r.At? ==> r.pos > pos
  {
    var next := pos + CmdTypeSize(Get32(buf, pos));
    if InBounds(buf, next, end) then At(next) else Null
  }

  /** The do-while loop of cmd_bounded_skip: over one context, or one simple command. */
  method SkipContext(buf: seq<byte>, start: nat, end: nat) returns (r: Cursor)
    requires end <= |buf| && InBounds(buf, start, end) && Get32(buf, start) != EOM
    ensures Moved(buf, At(start), r, end) && (r.At? ==> r.pos > start)
    ensures View(buf, r, end) == SkipOne(Decode(buf, start, end), 0)
  {
    hide Get32;
    var cmd, nested, first := start, 0, true;
    while first || (Get32(buf, cmd) != EOM && nested > 0)
      invariant InBounds(buf, cmd, end) && Moved(buf, At(start), At(cmd), end)
      invariant first ==> cmd == start && nested == 0
      invariant !first ==> cmd > start
      invariant !first ==> (SkipOne(Decode(buf, start, end), 0)
                            == if Get32(buf, cmd) != EOM && nested > 0 then SkipOne(Decode(buf, cmd, end), nested)
                               else Decode(buf, cmd, end))
      decreases end - cmd
    {
      var wouldBeNext := NextCmd(buf, cmd, end);
      if wouldBeNext.Null? { return Null; }
      var t := Get32(buf, cmd);
      if t == FORWARD_BEGIN {
        nested := nested + 1;
      } else if t == REPLY {
        if Get32(buf, wouldBeNext.pos) != FORWARD_CONTINUE { nested := nested - 1; }
      }
      cmd, first := wouldBeNext.pos, false;
    }
    r := At(cmd);
  }

  method CmdBoundedSkip(buf: seq<byte>, start: Cursor, toSkip: int, end: nat) returns (r: Cursor)
    requires end <= |buf|
    ensures Moved(buf, start, r, end)
    ensures View(buf, r, end) == Skip(View(buf, start, end), toSkip)
  {
    if start.Null? || !InBounds(buf, start.pos, end) { return Null; }
    var cmd, left := start.pos, toSkip;
    while Get32(buf, cmd) != EOM && left > 0
      invariant InBounds(buf, cmd, end) && Moved(buf, start, At(cmd), end)
      invariant Skip(Decode(buf, cmd, end), left) == Skip(View(buf, start, end), toSkip)
      decreases end - cmd
    {
      var next := SkipContext(buf, cmd, end);
      if next.Null? { return Null; }
      cmd, left := next.pos, left - 1;
    }
    r := if left > 0 then Null else At(cmd);
  }

  /** One turn of the loop of cmd_bounded_next_forward, from a command that is neither EOM nor FORWARD_CONTINUE. */
  method ForwardStep(buf: seq<byte>, cmd: nat, branched: bool, end: nat) returns (r: Cursor)
    requires end <= |buf| && InBounds(buf, cmd, end)
    requires Get32(buf, cmd) != EOM && Get32(buf, cmd) != FORWARD_CONTINUE
    ensures Moved(buf, At(cmd), r, end) && (r.At? ==> r.pos > cmd)
    ensures ToForward(View(buf, r, end), branched) == ToForward(Decode(buf, cmd, end), branched)
  {
    var t := Get32(buf, cmd);
    if t == FORWARD_BEGIN {
      r := SkipContext(buf, cmd, end);
    } else {
      r := NextCmd(buf, cmd, end);
      if r.At? && t == REPLY && (!branched || Get32(buf, r.pos) != FORWARD_CONTINUE) {
        return Null;
      }
    }
  }

  method CmdBoundedNextForward(buf: seq<byte>, start: Cursor, end: nat) returns (r: Cursor)
    requires end <= |buf| && (View(buf, start, end) != [] ==> IsForward(View(buf, start, end)[0]))
    ensures Moved(buf, start, r, end) && (r.At? ==> r.pos > start.pos)
    ensures View(buf, start, end) == [] ==> r.Null?
    ensures View(buf, start, end) != [] ==> View(buf, r, end) == NextForward(View(buf, start, end))
  {
    if start.Null? || !InBounds(buf, start.pos, end) { return Null; }
    var branched := Branched(ReadCmd(buf, start.pos, end));
    r := NextCmd(buf, start.pos, end);
    while r.At? && Get32(buf, r.pos) != EOM && Get32(buf, r.pos) != FORWARD_CONTINUE
      invariant Moved(buf, start, r, end) && (r.At? ==> r.pos > start.pos)
      invariant ToForward(View(buf, r, end), branched) == NextForward(View(buf, start, end))
      decreases if r.At? then 1 + end - r.pos else 0
    {
      r := ForwardStep(buf, r.pos, branched, end);
    }
    if r.At? && Get32(buf, r.pos) != FORWARD_CONTINUE { r := Null; }
  }

  method MsgNumCmd(buf: seq<byte>, end: nat) returns (n: nat)
    requires end <= |buf|
    ensures var s := Decode(buf, MESSAGE_HEADER, end);
      n == if s != [] && s[|s| - 1].ctype == EOM then |s| - 1 else |s|
  {
    hide Get32; hide CmdTypeSize;
    n := 0;
    var cmd := MESSAGE_HEADER;
    ghost var s := Decode(buf, MESSAGE_HEADER, end);
    while InBounds(buf, cmd, end) && Get32(buf, cmd) != EOM
      invariant n <= |s| && Decode(buf, cmd, end) == s[n..]
      invariant n == |s| > 0 ==> s[n - 1].ctype != EOM
      decreases end - cmd
    {
      n := n + 1;
      cmd := cmd + CmdTypeSize(Get32(buf, cmd));
    }
  }

  // ---------- message_copy_tail ----------

  /** `s` with `bytes` over it from offset `pos` on. */
  function Patch(s: seq<byte>, pos: nat, bytes: seq<byte>): (r: seq<byte>)
    requires pos + |bytes| <= |s|
    ensures |r| == |s| && r[pos..pos + |bytes|] == bytes
  {
    s[..pos] + bytes + s[pos + |bytes|..]
  }

  lemma {:induction false} PatchKeeps(s: seq<byte>, pos: nat, bytes: seq<byte>, lo: nat, hi: nat)
    requires pos + |bytes| <= |s| && lo <= hi <= |s| && (hi <= pos || pos + |bytes| <= lo)
    ensures Patch(s, pos, bytes)[lo..hi] == s[lo..hi]
  {
    var r := Patch(s, pos, bytes);
    assert forall i :: lo <= i < hi ==> r[i] == s[i];
  }

  /** memcpy of `bytes` to offset `pos`. */
  method Write(dst: array<byte>, pos: nat, bytes: seq<byte>)
    requires pos + |bytes| <= dst.Length
    modifies dst
    ensures dst[..] == Patch(old(dst[..]), pos, bytes)
  {
    forall i | 0 <= i < |bytes| {
      dst[pos + i] := bytes[i];
    }
  }

  /** The loop of message_copy_tail that looks for the matching REPLY. */
  method FindReply(buf: seq<byte>, start: Cursor, end: nat) returns (r: Cursor)
    requires end <= |buf| && ValidCursor(buf, start, end)
    ensures Moved(buf, start, r, end)
    ensures View(buf, r, end) == ToReply(View(buf, start, end))
  {
    r := start;
    while r.At? && Get32(buf, r.pos) != EOM && Get32(buf, r.pos) != REPLY
      invariant Moved(buf, start, r, end)
      invariant ToReply(View(buf, r, end)) == ToReply(View(buf, start, end))
      decreases if r.At? then 1 + end - r.pos else 0
    {
      r := SkipContext(buf, r.pos, end);
    }
  }

  /** The bytes between a cursor and the end of its matching REPLY encode exactly the tail. */
  lemma {:induction false} TailBytes(buf: seq<byte>, start: nat, reply: nat, end: nat)
    requires end <= |buf| && InBounds(buf, start, end) && InBounds(buf, reply, end)
    requires Moved(buf, At(start), At(reply), end)
    requires Decode(buf, reply, end) == ToReply(Decode(buf, start, end))
    ensures var stop := reply + CmdTypeSize(Get32(buf, reply));
      && stop <= end && buf[start..stop] == Encode(TailCommands(Decode(buf, start, end)))
  {
    var s, r := Decode(buf, start, end), Decode(buf, reply, end);
    var t := TailCommands(s);
    EncodeDecode(buf, start, end);
    DecodeShape(buf, start, end);
    TailSize(s);
    assert r[1..] == s[|t|..] by { ToReplySuffix(s); }
    PrefixSlice(buf, start, EncodedSize(t), EncodedSize(s));
  }

  lemma {:induction false} TailSize(s: seq<Command>)
    requires AllSized(s) && ToReply(s) != []
    ensures var t := TailCommands(s);
      && Encode(t) <= Encode(s) && |Encode(t)| == EncodedSize(t) && |Encode(s)| == EncodedSize(s)
      && EncodedSize(s) == EncodedSize(t) + EncodedSize(s[|t|..])
  {
    var t := TailCommands(s);
    assert s == t + s[|t|..];
    EncodeAppend(t, s[|t|..]);
    EncodeLength(t);
    EncodeLength(s);
  }

  lemma {:induction false} PrefixSlice(buf: seq<byte>, pos: nat, m: nat, n: nat)
    requires m <= n && pos + n <= |buf|
    ensures buf[pos..pos + n][..m] == buf[pos..pos + m]
  {
  }

  /** A reader of the copy sees the tail, closed by an EOM. */
  lemma {:induction false} CopyDecodes(dst: seq<byte>, pos: nat, end: nat, t: seq<Command>)
    requires AllSized(t) && EomOnlyLast(t) && t != []
    requires pos + EncodedSize(t) + CmdTypeSize(EOM) == end <= |dst|
    requires dst[pos..end] == Encode(t) + Put32(EOM)
    ensures Decode(dst, pos, end) == if t[|t| - 1].ctype == EOM then t else t + [EomCommand]
  {
    hide Get32; hide Put32; hide Decode; hide EncodeCmd;
    if t[|t| - 1].ctype == EOM {
      EncodeLength(t);
      SplitSlice(dst, pos, Encode(t), Put32(EOM));
      DecodeEncode(dst, pos, end, t);
    } else {
      ClosedEncoding(t);
      DecodeEncode(dst, pos, end, t + [EomCommand]);
    }
  }

  lemma {:induction false} ClosedEncoding(t: seq<Command>)
    ensures Encode(t + [EomCommand]) == Encode(t) + Put32(EOM)
    ensures EncodedSize(t + [EomCommand]) == EncodedSize(t) + CmdTypeSize(EOM)
  {
    EncodeAppend(t, [EomCommand]);
    assert Encode([EomCommand]) == EncodeCmd(EomCommand) + [];
  }

  /** What message_copy_tail promises about the destination when it succeeds on the commands `s`. */
  ghost predicate HoldsTail(dst: seq<byte>, before: seq<byte>, base: nat, m: seq<byte>, s: seq<Command>) {
    var end := base + MESSAGE_HEADER + EncodedSize(TailCommands(s)) + CmdTypeSize(EOM);
    && |m| >= 4 && |dst| == |before| && end <= |dst|
    && Get32(dst, base + REQ_SIZE_AT) == end - base
    && Decode(dst, base + MESSAGE_HEADER, end) == ClosedTail(s)
    && dst[base..base + 4] == m[..4] && dst[base + 8..base + 12] == before[base + 8..base + 12]
    && dst[..base] == before[..base] && dst[end..] == before[end..]
  }

  lemma {:induction false} CopyHoldsTail(d: seq<byte>, base: nat, m: seq<byte>, s: seq<Command>,
                                         d1: seq<byte>, d2: seq<byte>, r: seq<byte>)
    requires AllSized(s) && EomOnlyLast(s) && TailCommands(s) != [] && |m| >= 4 && |d| < 0x1_0000_0000
    requires base + MESSAGE_HEADER + EncodedSize(TailCommands(s)) + CmdTypeSize(EOM) <= |d|
    requires |Encode(TailCommands(s))| == EncodedSize(TailCommands(s))
    requires d1 == Patch(d, base, m[..4])
    requires d2 == Patch(d1, base + MESSAGE_HEADER, Encode(TailCommands(s)) + Put32(EOM))
    requires r == Patch(d2, base + REQ_SIZE_AT, Put32(MESSAGE_HEADER + EncodedSize(TailCommands(s)) + CmdTypeSize(EOM)))
    ensures HoldsTail(r, d, base, m, s)
    ensures Get32(r, base + REQ_SIZE_AT) == MESSAGE_HEADER + EncodedSize(TailCommands(s)) + CmdTypeSize(EOM)
  {
    hide Get32; hide Put32; hide Patch;
    var t := TailCommands(s);
    var end := base + MESSAGE_HEADER + EncodedSize(t) + CmdTypeSize(EOM);
    CopiedParts(d, base, m[..4], Encode(t) + Put32(EOM), Put32(end - base), d1, d2, r);
    GetPut(r, base + REQ_SIZE_AT, end - base);
    CopyDecodes(r, base + MESSAGE_HEADER, end, t);
  }

  lemma {:induction false} CopiedParts(d: seq<byte>, base: nat, id: seq<byte>, body: seq<byte>, size: seq<byte>,
                    d1: seq<byte>, d2: seq<byte>, r: seq<byte>)
    requires |id| == 4 && |size| == 4 && base + MESSAGE_HEADER + |body| <= |d|
    requires d1 == Patch(d, base, id) && d2 == Patch(d1, base + MESSAGE_HEADER, body)
    requires r == Patch(d2, base + REQ_SIZE_AT, size)
    ensures |r| == |d| && r[..base] == d[..base] && r[base..base + 4] == id && r[base + 4..base + 8] == size
    ensures r[base + 8..base + 12] == d[base + 8..base + 12]
    ensures r[base + 12..base + 12 + |body|] == body && r[base + 12 + |body|..] == d[base + 12 + |body|..]
  {
    PatchKeeps(d1, base + 12, body, base, base + 4);
    PatchKeeps(d2, base + 4, size, base, base + 4);
    PatchKeeps(d2, base + 4, size, base + 12, base + 12 + |body|);
    KeptByCopy(d, base, id, body, size, 0, base);
    KeptByCopy(d, base, id, body, size, base + 8, base + 12);
    KeptByCopy(d, base, id, body, size, base + 12 + |body|, |d|);
  }

  lemma {:induction false} KeptByCopy(d: seq<byte>, base: nat, id: seq<byte>, body: seq<byte>, size: seq<byte>,
                                      lo: nat, hi: nat)
    requires |id| == 4 && |size| == 4 && base + MESSAGE_HEADER + |body| <= |d| && lo <= hi <= |d|
    requires hi <= base || (base + 8 == lo && hi == base + 12) || base + MESSAGE_HEADER + |body| <= lo
    ensures Patch(Patch(Patch(d, base, id), base + MESSAGE_HEADER, body), base + REQ_SIZE_AT, size)[lo..hi] == d[lo..hi]
  {
    var d1 := Patch(d, base, id);
    PatchKeeps(d, base, id, lo, hi);
    PatchKeeps(d1, base + MESSAGE_HEADER, body, lo, hi);
    PatchKeeps(Patch(d1, base + MESSAGE_HEADER, body), base + REQ_SIZE_AT, size, lo, hi);
  }

  /** message_copy_tail finds a tail of `s` that it takes to fit in `avail` bytes. */
  predicate Copies(s: seq<Command>, avail: nat) {
    TailCommands(s) != [] && EncodedSize(TailCommands(s)) + CmdTypeSize(EOM) <= avail
  }

  /** message_copy_tail. `m` starts at the source message's header; the destination message starts at
      offset `base` of `dst`, with its available size in its req_size field. The memory has to hold what is
      written, which can be more than that size: the check of the size does not count the header. */
  method MessageCopyTail(m: seq<byte>, dst: array<byte>, base: nat, cmd: Cursor) returns (r: Cursor)
    requires MESSAGE_HEADER <= |m| && Get32(m, REQ_SIZE_AT) <= |m|
    requires ValidCursor(m, cmd, Get32(m, REQ_SIZE_AT))
    requires base + MESSAGE_HEADER <= dst.Length < 0x1_0000_0000
    requires var s := View(m, cmd, Get32(m, REQ_SIZE_AT));
      Copies(s, Get32(dst[..], base + REQ_SIZE_AT))
      ==> base + MESSAGE_HEADER + EncodedSize(TailCommands(s)) + CmdTypeSize(EOM) <= dst.Length
    modifies dst
    ensures var s, avail := View(m, cmd, Get32(m, REQ_SIZE_AT)), old(Get32(dst[..], base + REQ_SIZE_AT));
      && (r.At? <==> Copies(s, avail))
      && (r.At? ==> (Get32(dst[..], base + REQ_SIZE_AT) <= avail
                     <==> MESSAGE_HEADER + EncodedSize(TailCommands(s)) + CmdTypeSize(EOM) <= avail))
      && (r.At? ==> HoldsTail(dst[..], old(dst[..]), base, m, s))
      && (r.At? ==> Moved(m, cmd, r, Get32(m, REQ_SIZE_AT)) && View(m, r, Get32(m, REQ_SIZE_AT)) == ToReply(s))
      && (r.Null? ==> dst[..] == Patch(old(dst[..]), base, m[..4]))
  {
    hide Get32; hide Put32; hide Patch; hide Decode; hide HoldsTail; hide EncodedSize; hide Encode;
    var avail := Get32(dst[..], base + REQ_SIZE_AT);
    Write(dst, base, m[..4]);
    var end := Get32(m, REQ_SIZE_AT);
    var itr := FindReply(m, cmd, end);
    if itr.Null? { return Null; }
    ghost var s := View(m, cmd, end);
    TailBytes(m, cmd.pos, itr.pos, end);
    DecodeShape(m, cmd.pos, end);
    EncodeLength(TailCommands(s));

    var cmdsLen := itr.pos + CmdTypeSize(Get32(m, itr.pos)) - cmd.pos;
    if avail < cmdsLen + CmdTypeSize(EOM) { return Null; }
    ghost var d1 := dst[..];
    Write(dst, base + MESSAGE_HEADER, m[cmd.pos..cmd.pos + cmdsLen] + Put32(EOM));
    ghost var d2 := dst[..];
    Write(dst, base + REQ_SIZE_AT, Put32(MESSAGE_HEADER + cmdsLen + CmdTypeSize(EOM)));
    CopyHoldsTail(old(dst[..]), base, m, s, d1, d2, dst[..]);
    r := itr;
  }

  /** The copy can leave the room announced for it: a program that is just a REPLY, copied to a destination with
      room for its tail but not for a header besides, becomes a message longer than that room. */
  method CopyBeyondRoom(gap: nat) returns (m: seq<byte>, before: seq<byte>, dst: array<byte>)
    requires gap < MESSAGE_HEADER
    ensures |m| == |before| == dst.Length == 32 && fresh(dst)
    ensures HoldsTail(dst[..], before, 0, m, Decode(m, MESSAGE_HEADER, |m|))
    ensures Get32(before, REQ_SIZE_AT) == 20 + gap < 32 == Get32(dst[..], REQ_SIZE_AT)
  {
    hide Get32; hide Put32; hide Patch; hide Decode; hide Encode; hide HoldsTail;
    var reply := Command(REPLY, seq(REPLY_OPTS, _ => 0));
    m := Put32(0) + Put32(32) + Put32(0) + Encode([reply, EomCommand]);
    OneReply(m, reply);
    dst := new byte[32](_ => 0);
    Write(dst, REQ_SIZE_AT, Put32(20 + gap));
    GetPut(dst[..], REQ_SIZE_AT, 20 + gap);
    before := dst[..];
    var r := MessageCopyTail(m, dst, 0, At(MESSAGE_HEADER));
    CopiedSize(dst[..], before, m, Decode(m, MESSAGE_HEADER, |m|));
  }

  lemma {:induction false} CopiedSize(dst: seq<byte>, before: seq<byte>, m: seq<byte>, s: seq<Command>)
    requires HoldsTail(dst, before, 0, m, s)
    ensures |dst| >= MESSAGE_HEADER
    ensures Get32(dst, REQ_SIZE_AT) == MESSAGE_HEADER + EncodedSize(TailCommands(s)) + CmdTypeSize(EOM)
  {
  }

  lemma {:induction false} OneReply(m: seq<byte>, reply: Command)
    requires reply.ctype == REPLY && Sized(reply)
    requires m == Put32(0) + Put32(32) + Put32(0) + Encode([reply, EomCommand])
    ensures |m| == 32 && Get32(m, REQ_SIZE_AT) == 32 && InBounds(m, MESSAGE_HEADER, 32)
    ensures Decode(m, MESSAGE_HEADER, 32) == [reply, EomCommand]
    ensures TailCommands([reply, EomCommand]) == [reply] && EncodedSize([reply]) == 16
  {
    hide Get32; hide Put32; hide Encode; hide EncodeCmd;
    var s := [reply, EomCommand];
    EncodeLength(s);
    assert s[1..] == [EomCommand];
    EncodeStep(s);
    EncodeStep([EomCommand]);
    EncodeStep([reply]);
    assert EncodedSize(s) == 20 && EncodedSize([reply]) == 16;
    assert m[4..8] == Put32(32) && m[12..32] == Encode(s);
    GetPut(m, REQ_SIZE_AT, 32);
    DecodeEncode(m, MESSAGE_HEADER, 32, s);
  }
}
