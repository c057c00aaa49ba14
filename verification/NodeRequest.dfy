/** The request handlers of src/dw_node.c over the bytes of the request's message: the object updates its
    fields step by step as the C code does, and every method is proved against the functions of Node.dfy. */
module NodeRequest {
  import opened Layout
  import opened Walk
  import opened Message
  import opened Node
  import opened ReplyMessage
  import opened Connection

  /** Bytes handed to the network, for address `to`. */
  datatype Datagram = Datagram(to: seq<byte>, bytes: seq<byte>)

  /** What the receiver of the datagram will decode. */
  function PacketOf(d: Datagram): Packet {
    Packet(d.to, Decode(d.bytes, MESSAGE_HEADER, |d.bytes|), |d.bytes|)
  }

  function PacketsOf(ds: seq<Datagram>): seq<Packet> {
    if ds == [] then [] else PacketsOf(ds[..|ds| - 1]) + [PacketOf(ds[|ds| - 1])]
  }

  /** The header of a forwarded message: the id of the request that forwards, and the message's own size. */
  predicate Labels(d: Datagram, id: u32) {
    |d.bytes| >= 8 ==> Get32(d.bytes, 0) == id && Get32(d.bytes, REQ_SIZE_AT) == |d.bytes|
  }

  predicate AllLabelled(ds: seq<Datagram>, id: u32) {
    forall i :: 0 <= i < |ds| ==> Labels(ds[i], id)
  }

  lemma {:induction false} PacketsOfMore(ds: seq<Datagram>, d: Datagram)
    ensures PacketsOf(ds + [d]) == PacketsOf(ds) + [PacketOf(d)]
  {
    assert (ds + [d])[..|ds|] == ds;
  }

  /** The code asserts that the packet size chosen for a forward, and the size of a reply, are not larger than the
      send buffer. */
  predicate AllFit(s: seq<Command>) {
    forall i :: 0 <= i < |s| ==> FitsBuffer(s[i])
  }

  predicate FitsBuffer(c: Command) {
    (IsForward(c) ==> PktSize(c.opts) <= BUF_SIZE) && (c.ctype == REPLY ==> RespSize(c) <= BUF_SIZE)
  }

  lemma {:induction false} FitSuffix(r: seq<Command>, s: seq<Command>)
    requires Suffix(r, s) && AllFit(s)
    ensures AllFit(r)
  {
    var k := |s| - |r|;
    forall i | 0 <= i < |r| ensures FitsBuffer(r[i]) {
      assert r[i] == s[k + i];
    }
  }

  /** A buffer that decodes to a closed list still does when more bytes follow and only the header changes. */
  lemma {:induction false} DecodeLonger(b: seq<byte>, end: nat, b': seq<byte>)
    requires MESSAGE_HEADER <= end <= |b| && end <= |b'|
    requires b[MESSAGE_HEADER..end] == b'[MESSAGE_HEADER..end]
    requires var s := Decode(b, MESSAGE_HEADER, end); s != [] && s[|s| - 1].ctype == EOM
    ensures Decode(b', MESSAGE_HEADER, |b'|) == Decode(b, MESSAGE_HEADER, end)
  {
    hide Decode; hide Encode;
    var s := Decode(b, MESSAGE_HEADER, end);
    DecodeShape(b, MESSAGE_HEADER, end);
    EncodeDecode(b, MESSAGE_HEADER, end);
    var n := EncodedSize(s);
    PrefixSlice(b, MESSAGE_HEADER, n, end - MESSAGE_HEADER);
    PrefixSlice(b', MESSAGE_HEADER, n, end - MESSAGE_HEADER);
    DecodeEncode(b', MESSAGE_HEADER, |b'|, s);
  }

  /** A shorter message shows the commands that still lie inside it. */
  lemma {:induction false} DecodeShorter(b: seq<byte>, pos: nat, end: nat, n: nat)
    requires n <= end <= |b|
    ensures Decode(b, pos, n) == Clip(Decode(b, pos, end), n - pos)
    decreases end - pos
  {
    hide Get32; hide CmdTypeSize;
    if InBounds(b, pos, n) && ReadCmd(b, pos, n).ctype != EOM {
      DecodeShorter(b, pos + CmdTypeSize(Get32(b, pos)), end, n);
    }
  }

  /** What a message shows depends on its own bytes only. */
  lemma {:induction false} DecodeSame(b: seq<byte>, b': seq<byte>, pos: nat, n: nat)
    requires n <= |b| && n <= |b'| && (pos <= n ==> b[pos..n] == b'[pos..n])
    ensures Decode(b, pos, n) == Decode(b', pos, n)
    decreases n - pos
  {
    hide CmdTypeSize;
    if pos + COMMAND_HEADER <= n {
      SameWord(b, b', pos, n);
      hide Get32;
      var size := CmdTypeSize(Get32(b, pos));
      if pos + size <= n {
        SameSlice(b, b', pos, n, pos + COMMAND_HEADER, pos + size);
        SameSlice(b, b', pos, n, pos + size, n);
        if Get32(b, pos) != EOM { DecodeSame(b, b', pos + size, n); }
      }
    }
  }

  lemma {:induction false} SameWord(b: seq<byte>, b': seq<byte>, pos: nat, n: nat)
    requires pos + 4 <= n <= |b| && n <= |b'| && b[pos..n] == b'[pos..n]
    ensures Get32(b, pos) == Get32(b', pos)
  {
    assert forall i :: 0 <= i < 4 ==> b[pos + i] == b[pos..n][i] && b'[pos + i] == b'[pos..n][i];
  }

  lemma {:induction false} SameSlice(b: seq<byte>, b': seq<byte>, pos: nat, n: nat, lo: nat, hi: nat)
    requires pos <= lo <= hi <= n <= |b| && n <= |b'| && b[pos..n] == b'[pos..n]
    ensures b[lo..hi] == b'[lo..hi]
  {
    forall i | lo <= i < hi ensures b[i] == b'[i] {
      assert b[i] == b[pos..n][i - pos] && b'[i] == b'[pos..n][i - pos];
    }
  }

  /** The datagram built from a successful copy, once its header is final, shows the branch as far as the packet
      size reaches. */
  lemma {:induction false} DatagramHolds(copied: seq<byte>, before: seq<byte>, final: seq<byte>, n: nat,
                                         m: seq<byte>, s: seq<Command>)
    requires HoldsTail(copied, before, 0, m, s) && ToReply(s) != [] && |final| == |copied| && n <= |final|
    requires final[8..|final|] == copied[8..|copied|]
    ensures Decode(final[..n], MESSAGE_HEADER, n) == Clip(ClosedTail(s), n - MESSAGE_HEADER)
  {
    hide Decode; hide Get32; hide EncodedSize; hide ToReply; hide Clip;
    var end := MESSAGE_HEADER + EncodedSize(TailCommands(s)) + CmdTypeSize(EOM);
    if n < end {
      if MESSAGE_HEADER <= n {
        SameSlice(final, copied, 8, |final|, MESSAGE_HEADER, n);
        assert final[..n][MESSAGE_HEADER..n] == final[MESSAGE_HEADER..n];
      }
      DecodeSame(final[..n], copied, MESSAGE_HEADER, n);
      DecodeShorter(copied, MESSAGE_HEADER, end, n);
    } else {
      SameSlice(final, copied, 8, |final|, MESSAGE_HEADER, end);
      assert final[..n][MESSAGE_HEADER..end] == final[MESSAGE_HEADER..end];
      DecodeLonger(copied, end, final[..n]);
      DecodeShape(copied, MESSAGE_HEADER, end);
      ClipWhole(ClosedTail(s), n - MESSAGE_HEADER);
    }
  }

  lemma {:induction false} HeaderLabels(b: seq<byte>, id: u32, size: u32, d: Datagram)
    requires 8 <= |b| && size <= |b| && b[0..8] == Put32(id) + Put32(size) && d.bytes == b[..size]
    ensures Labels(d, id) && |d.bytes| == size
  {
    hide Get32; hide Put32;
    if size >= 8 {
      assert d.bytes[0..4] == b[0..8][0..4] == Put32(id) && d.bytes[4..8] == b[0..8][4..8] == Put32(size);
      GetPut(d.bytes, 0, id);
      GetPut(d.bytes, REQ_SIZE_AT, size);
    }
  }

  /** The tail of a branch is shorter than the message it is in. */
  lemma {:induction false} TailInside(b: seq<byte>, c: Cursor, end: nat)
    requires end <= |b| && ValidCursor(b, c, end) && (c.At? ==> c.pos >= COMMAND_HEADER)
    ensures var s := View(b, c, end); ToReply(s) != [] ==> EncodedSize(TailCommands(s)) + COMMAND_HEADER <= end
  {
    hide Decode; hide ToReply; hide EncodedSize; hide Encode;
    if c.At? && ToReply(View(b, c, end)) != [] {
      DecodeShape(b, c.pos, end);
      TailSize(View(b, c, end));
    }
  }

  /** A reply that is recognised, for request `id` of its receiver. */
  ghost predicate ReplyFields(b: seq<byte>, id: u32, status: u32) {
    |b| >= MIN_REPLY && Recognised(b) && Get32(b, 0) == id && Get32(b, 8) == status
  }

  class Request {
    const id: u32
    const msg: seq<byte>     // the message, from its header on
    var currCmd: Cursor
    var fwdRepliesLeft: int
    var fwdRepliesMask: set<nat>
    var fwdTimeout: nat
    var fwdRetries: int
    var fwdOnFailSkip: int
    var status: u32
    var executed: seq<Command>
    var wire: seq<Datagram>
    var answers: seq<seq<byte>>   // the replies sent to the requester

    ghost predicate Valid()
      reads this
    {
      && |msg| >= MESSAGE_HEADER && Get32(msg, REQ_SIZE_AT) <= |msg| && Get32(msg, REQ_SIZE_AT) <= BUF_SIZE
      && ValidCursor(msg, currCmd, End())
      && AllFit(Seen(currCmd)) && AllLabelled(wire, id)
    }

    function End(): nat
      requires |msg| >= MESSAGE_HEADER
    {
      Get32(msg, REQ_SIZE_AT)
    }

    function Seen(c: Cursor): seq<Command>
      requires |msg| >= MESSAGE_HEADER && End() <= |msg|
    {
      View(msg, c, End())
    }

    /** The request as Node.dfy sees it. */
    ghost function Abs(): Req
      requires |msg| >= MESSAGE_HEADER && End() <= |msg|
      reads this
    {
      Req(Seen(currCmd), fwdRepliesLeft, fwdRepliesMask, fwdTimeout, fwdRetries, fwdOnFailSkip, status)
    }

    function Kind(c: Cursor): u32
      requires |msg| >= MESSAGE_HEADER && End() <= |msg| && ValidCursor(msg, c, End()) && c.At?
    {
      Get32(msg, c.pos)
    }

    predicate AtForwardCmd(c: Cursor)
      requires |msg| >= MESSAGE_HEADER && End() <= |msg| && ValidCursor(msg, c, End())
    {
      c.At? && IsForward(ReadCmd(msg, c.pos, End()))
    }

    /** req_alloc and obtain_messages: a request for a received message, at its first command, in a slot that
        held `slot` before. */
    constructor (id: u32, msg: seq<byte>, slot: Req)
      requires |msg| >= MESSAGE_HEADER && Get32(msg, REQ_SIZE_AT) <= |msg| && Get32(msg, REQ_SIZE_AT) <= BUF_SIZE
      requires InBounds(msg, MESSAGE_HEADER, Get32(msg, REQ_SIZE_AT))
      requires AllFit(Decode(msg, MESSAGE_HEADER, Get32(msg, REQ_SIZE_AT)))
      ensures Valid() && this.id == id && this.msg == msg && executed == [] && wire == [] && answers == []
      ensures Abs() == NewReq(slot, Get32(msg, 8), Decode(msg, MESSAGE_HEADER, Get32(msg, REQ_SIZE_AT)))
    {
      this.id, this.msg, currCmd := id, msg, At(MESSAGE_HEADER);
      fwdRepliesLeft, fwdRepliesMask, fwdTimeout := -1, slot.mask, slot.timeout;
      fwdRetries, fwdOnFailSkip := slot.retries, slot.onFailSkip;
      status, executed, wire, answers := Get32(msg, 8), [], [], [];
    }

    method FindForwardReplyId(cmd: Cursor, addr: seq<byte>) returns (id: int)
      requires |msg| >= MESSAGE_HEADER && End() <= |msg| && ValidCursor(msg, cmd, End())
      requires cmd.At? ==> IsForward(Seen(cmd)[0])
      ensures id == FindReplyId(Seen(cmd), addr)
    {
      var c := cmd;
      id := 0;
      while c.At?
        invariant ValidCursor(msg, c, End()) && (c.At? ==> IsForward(Seen(c)[0]))
        invariant id >= 0
        invariant FindReplyId(Seen(cmd), addr)
          == var rest := FindReplyId(Seen(c), addr); if rest == -1 then -1 else id + rest
        decreases if c.At? then 1 + End() - c.pos else 0
      {
        if FwdAddr(ReadCmd(msg, c.pos, End())) == addr { return; }
        c := CmdBoundedNextForward(msg, c, End());
        id := id + 1;
      }
      id := -1;
    }

    /** The destinations of the branch that come after `cmd` are stepped over. */
    method ToBranch(cmd: nat) returns (c: Cursor)
      requires Valid() && InBounds(msg, cmd, End()) && Get32(msg, cmd) != EOM
      ensures ValidCursor(msg, c, End()) && Seen(c) == BranchBody(Seen(At(cmd))[1..])
      ensures c.At? ==> c.pos >= COMMAND_HEADER
    {
      hide Get32;
      c := NextCmd(msg, cmd, End());
      while c.At? && Get32(msg, c.pos) == FORWARD_CONTINUE
        invariant ValidCursor(msg, c, End()) && BranchBody(Seen(c)) == BranchBody(Seen(At(cmd))[1..])
        invariant c.At? ==> c.pos >= COMMAND_HEADER
        decreases if c.At? then 1 + End() - c.pos else 0
      {
        c := NextCmd(msg, c.pos, End());
      }
    }

    lemma {:induction false} Here(c: Cursor)
      requires |msg| >= MESSAGE_HEADER && End() <= |msg| && ValidCursor(msg, c, End()) && c.At?
      ensures Seen(c) != [] && Seen(c)[0] == ReadCmd(msg, c.pos, End()) && Seen(c)[0].ctype == Get32(msg, c.pos)
    {
    }

    /** The sending part of single_start_forward: the branch of the destination at `cmd` is copied into a
        send buffer and leaves with the packet size chosen for it. */
    method SendBranch(cmd: Cursor) returns (ok: bool)
      requires Valid() && ValidCursor(msg, cmd, End()) && cmd.At?
      requires IsForward(Seen(cmd)[0]) && PktSize(Seen(cmd)[0].opts) <= BUF_SIZE
      modifies this`wire
      ensures var body := BranchBody(Seen(cmd)[1..]);
        && ok == (ToReply(body) != [])
        && PacketsOf(wire) == PacketsOf(old(wire))
             + if ok then [Packet(FwdAddr(Seen(cmd)[0]), Carried(Seen(cmd)[0].opts, ClosedTail(body)),
                                  PktSize(Seen(cmd)[0].opts))] else []
      ensures AllLabelled(wire, id)
    {
      hide Get32; hide Decode; hide ToReply; hide PacketsOf; hide Patch; hide HoldsTail; hide View; hide BranchBody;
      Here(cmd);
      var c := ToBranch(cmd.pos);
      var fwd := ReadCmd(msg, cmd.pos, End());
      var size := PktSize(fwd.opts);
      var dst := new byte[BUF_SIZE + MESSAGE_HEADER](_ => 0);
      Write(dst, REQ_SIZE_AT, Put32(BUF_SIZE));
      GetPut(dst[..], REQ_SIZE_AT, BUF_SIZE);
      ghost var before := dst[..];
      TailInside(msg, c, End());
      var r := MessageCopyTail(msg, dst, 0, c);
      if r.Null? { return false; }
      ghost var copied := dst[..];
      Write(dst, 0, Put32(id) + Put32(size));
      PatchKeeps(copied, 0, Put32(id) + Put32(size), 8, |copied|);
      DatagramHolds(copied, before, dst[..], size, msg, Seen(c));
      var d := Datagram(FwdAddr(fwd), dst[..size]);
      HeaderLabels(dst[..], id, size, d);
      PacketsOfMore(wire, d);
      wire := wire + [d];
      ok := true;
    }

    /** single_start_forward, for the destination at `cmd`. */
    method SingleStartForward(cmd: Cursor) returns (ok: bool)
      requires Valid() && ValidCursor(msg, cmd, End()) && cmd.At?
      requires IsForward(Seen(cmd)[0]) && PktSize(Seen(cmd)[0].opts) <= BUF_SIZE && AtForward(Seen(currCmd))
      modifies this`wire
      ensures ok == SingleStart(Abs(), Seen(cmd)).0
      ensures PacketsOf(wire) == PacketsOf(old(wire)) + SingleStart(Abs(), Seen(cmd)).1 && AllLabelled(wire, id)
    {
      hide Get32; hide Decode; hide ToReply; hide PacketsOf; hide View; hide BranchBody; hide FindReplyId;
      Here(cmd);
      var replyId := FindForwardReplyId(currCmd, FwdAddr(ReadCmd(msg, cmd.pos, End())));
      if replyId == -1 { return false; }
      if fwdRepliesLeft != -1 && replyId in fwdRepliesMask {
        var next := CmdBoundedNextForward(msg, cmd, End());
        if next.Null? {
          next := CmdBoundedSkip(msg, currCmd, 1, End());
        }
        return next.At?;
      }
      ok := SendBranch(cmd);
    }

    lemma {:induction false} NextFits(s: seq<Command>)
      requires AtForward(s) && AllFit(s)
      ensures PktSize(s[0].opts) <= BUF_SIZE && AllFit(NextForward(s))
    {
      hide ToForward;
      ToForwardSuffix(s[1..], Branched(s[0]));
      assert AllFit(NextForward(s)) by {
        hide AllFit;
        FitSuffix(NextForward(s), s);
      }
    }

    lemma {:induction false} RoundStep(r: Req, s: seq<Command>)
      requires AtForward(r.cur) && AtForward(s)
      ensures !SingleStart(r, s).0 ==> SingleStart(r, s).1 == [] && SendRound(r, s) == (false, [])
      ensures SingleStart(r, s).0 ==> SendRound(r, s).0 == SendRound(r, NextForward(s)).0
      ensures SingleStart(r, s).0 ==> SendRound(r, s).1 == SingleStart(r, s).1 + SendRound(r, NextForward(s)).1
    {
    }

    /** The loop of start_forward. */
    method SendToAll(cmd: Cursor) returns (ok: bool)
      requires Valid() && ValidCursor(msg, cmd, End()) && cmd.At?
      requires AtForward(Seen(cmd)) && AllFit(Seen(cmd)) && AtForward(Seen(currCmd))
      modifies this`wire
      ensures ok == SendRound(Abs(), Seen(cmd)).0
      ensures PacketsOf(wire) == PacketsOf(old(wire)) + SendRound(Abs(), Seen(cmd)).1 && AllLabelled(wire, id)
    {
      hide Get32; hide Decode; hide PacketsOf; hide View; hide SingleStart; hide SendRound; hide AllFit;
      ghost var r, goal := Abs(), PacketsOf(wire) + SendRound(Abs(), Seen(cmd)).1;
      var itr := cmd;
      while itr.At?
        invariant ValidCursor(msg, itr, End()) && (itr.At? ==> AtForward(Seen(itr)) && AllFit(Seen(itr)))
        invariant SendRound(r, Seen(itr)).0 == SendRound(r, Seen(cmd)).0
        invariant PacketsOf(wire) + SendRound(r, Seen(itr)).1 == goal && AllLabelled(wire, id)
        decreases if itr.At? then 1 + End() - itr.pos else 0
      {
        ghost var s, before := Seen(itr), PacketsOf(wire);
        NextFits(s);
        RoundStep(r, s);
        Here(itr);
        ok := SingleStartForward(itr);
        if !ok { return false; }
        itr := CmdBoundedNextForward(msg, itr, End());
        assert before + (SingleStart(r, s).1 + SendRound(r, NextForward(s)).1)
            == PacketsOf(wire) + SendRound(r, NextForward(s)).1;
      }
      assert SendRound(r, []) == (true, []) by { SendRoundEmpty(r); }
      ok := true;
    }

    lemma {:induction false} SendRoundEmpty(r: Req)
      requires AtForward(r.cur)
      ensures SendRound(r, []) == (true, [])
    {
    }

    /** start_forward. */
    method StartForward(cmd: Cursor) returns (ok: bool)
      requires Valid() && ValidCursor(msg, cmd, End()) && cmd.At?
      requires AtForward(Seen(cmd)) && AllFit(Seen(cmd)) && AtForward(Seen(currCmd))
      modifies this
      ensures currCmd == old(currCmd) && executed == old(executed) && answers == old(answers)
      ensures AllLabelled(wire, id)
      ensures var r := Node.StartForward(old(Abs()), Seen(cmd));
        && Abs() == r.req && r.done == [] && r.outcome == (if ok then WaitForward else Failed)
        && PacketsOf(wire) == PacketsOf(old(wire)) + r.sent
    {
      hide Get32; hide Decode; hide PacketsOf; hide View; hide SendRound; hide AllFit;
      Here(cmd);
      if fwdRepliesLeft == -1 {
        var fwd := ReadCmd(msg, cmd.pos, End());
        fwdRepliesLeft, fwdRepliesMask := FwdNAck(fwd), {};
        fwdTimeout, fwdRetries, fwdOnFailSkip := FwdTimeout(fwd), FwdRetries(fwd), FwdOnFailSkip(fwd);
      }
      ok := SendToAll(cmd);
    }

    /** cmd_bounded_skip by one and cmd_bounded_next, in terms of what the cursor sees. */
    method SkipItem(cmd: Cursor) returns (r: Cursor)
      requires Valid() && ValidCursor(msg, cmd, End()) && cmd.At? && Kind(cmd) != EOM && AllFit(Seen(cmd))
      ensures ValidCursor(msg, r, End()) && Seen(r) == SkipOne(Seen(cmd), 0) && AllFit(Seen(r))
    {
      hide AllFit;
      SkipOneSuffix(Seen(cmd), 0);
      FitSuffix(SkipOne(Seen(cmd), 0), Seen(cmd));
      r := SkipContext(msg, cmd.pos, End());
    }

    method NextItem(cmd: Cursor) returns (r: Cursor)
      requires Valid() && ValidCursor(msg, cmd, End()) && cmd.At? && Kind(cmd) != EOM && AllFit(Seen(cmd))
      ensures ValidCursor(msg, r, End()) && Seen(r) == Seen(cmd)[1..] && AllFit(Seen(r))
    {
      hide AllFit;
      FitSuffix(Seen(cmd)[1..], Seen(cmd));
      r := NextCmd(msg, cmd.pos, End());
    }

    /** The replies sent by a handler that ended with `o`. */
    function Answer(o: Outcome, status: u32): seq<seq<byte>>
      requires |msg| >= MESSAGE_HEADER
    {
      if o.Replied? && RespSize(o.reply) <= BUF_SIZE
      then [ReplyBytes(seq(BUF_SIZE, _ => 0), Get32(msg, 0), RespSize(o.reply), status)] else []
    }

    /** Whoever handled the request: its one answer, when large enough, is recognised and carries the id of the
        message that is answered and the status. */
    lemma {:induction false} AnswerFields(o: Outcome, status: u32)
      requires |msg| >= MESSAGE_HEADER && o.Replied? && RespSize(o.reply) <= BUF_SIZE
      ensures |Answer(o, status)| == 1 && |Answer(o, status)[0]| == RespSize(o.reply)
      ensures RespSize(o.reply) >= MIN_REPLY ==> ReplyFields(Answer(o, status)[0], Get32(msg, 0), status)
    {
      hide Get32; hide Recognised; hide ReplyStart;
      ReplyRecognised(seq(BUF_SIZE, _ => 0), Get32(msg, 0), RespSize(o.reply), status);
    }

    /** reply, in its normal mode, through an empty send buffer. */
    method SendReply(c: Command)
      requires |msg| >= MESSAGE_HEADER && c.ctype == REPLY && RespSize(c) <= BUF_SIZE
      modifies this`answers
      ensures answers == old(answers) + Answer(Replied(c), status)
      ensures |answers| == |old(answers)| + 1 && |answers[|old(answers)|]| == RespSize(c)
      ensures RespSize(c) >= MIN_REPLY ==> ReplyFields(answers[|old(answers)|], Get32(msg, 0), status)
    {
      hide ReplyBytes; hide Get32;
      AnswerFields(Replied(c), status);
      var b := ReplyBytes(seq(BUF_SIZE, _ => 0), Get32(msg, 0), RespSize(c), status);
      answers := answers + [b];
    }

    /** The forward case of process_single_message. */
    method ProcessForward(cmd: Cursor, devs: nat) returns (out: Outcome)
      requires Valid() && ValidCursor(msg, cmd, End()) && cmd.At? && AllFit(Seen(cmd))
      requires Kind(cmd) == FORWARD_BEGIN || Kind(cmd) == FORWARD_CONTINUE
      modifies this
      ensures var r := Process(old(Abs()), Seen(cmd), devs);
        && Valid() && Abs() == r.req && out == r.outcome && executed == old(executed) && r.done == []
        && PacketsOf(wire) == PacketsOf(old(wire)) + r.sent && answers == old(answers) && !out.Replied?
    {
      hide Get32; hide Decode; hide View; hide PacketsOf; hide Node.StartForward; hide AllFit; hide SkipOne;
      Here(cmd);
      if Kind(cmd) == FORWARD_BEGIN { currCmd := cmd; }
      AtForwardSame(currCmd);
      if !AtForwardCmd(currCmd) { return Failed; }
      var ok := StartForward(cmd);
      out := if ok then WaitForward else Failed;
    }

    /** process_single_message, on a node with `devs` storage devices. Handing a command to the storage
        worker, computing and replying are recorded in `executed`. */
    method ProcessSingleMessage(devs: nat) returns (out: Outcome)
      requires Valid()
      modifies this
      ensures var r := Process(old(Abs()), old(Abs()).cur, devs);
        && Valid() && Abs() == r.req && out == r.outcome && executed == old(executed) + r.done
        && PacketsOf(wire) == PacketsOf(old(wire)) + r.sent
        && answers == old(answers) + Answer(out, status)
    {
      hide Get32; hide Decode; hide View; hide PacketsOf; hide AllFit; hide SkipOne; hide Process; hide ReplyBytes;
      hide RespSize;
      ghost var r0 := Abs();
      ghost var goal := Process(r0, r0.cur, devs);
      ghost var done: seq<Command> := [];
      var cmd := currCmd;
      while cmd.At? && Kind(cmd) != EOM
        invariant ValidCursor(msg, cmd, End()) && AllFit(Seen(cmd))
        invariant Valid() && Abs() == r0 && wire == old(wire) && answers == old(answers)
        invariant executed == old(executed) + done
        invariant var rest := Process(r0, Seen(cmd), devs); goal == rest.(done := done + rest.done)
        decreases |Seen(cmd)|
      {
        Here(cmd);
        Cases(r0, Seen(cmd), devs);
        var c := ReadCmd(msg, cmd.pos, End());
        if c.ctype == COMPUTE {
          executed := executed + [c];
        } else if c.ctype == FORWARD_BEGIN || c.ctype == FORWARD_CONTINUE {
          out := ProcessForward(cmd, devs);
          return;
        } else if c.ctype == REPLY {
          executed := executed + [c];
          HeadFits(Seen(cmd));
          SendReply(c);
          return Replied(c);
        } else if c.ctype == STORE || c.ctype == LOAD {
          if DevId(c) >= devs { return Failed; }
          executed := executed + [c];
          if c.ctype == LOAD || WaitSync(c) {
            currCmd := NextItem(cmd);
            return WaitStorage;
          }
        } else {
          return Stuck;
        }
        done := done + [c];
        cmd := SkipItem(cmd);
      }
      AtEnd(cmd, devs);
      out := Ended;
    }

    lemma {:induction false} HeadFits(s: seq<Command>)
      requires s != [] && AllFit(s)
      ensures FitsBuffer(s[0])
    {
    }

    /** What process_single_message does with the command in front of it. */
    lemma {:induction false} Cases(r: Req, s: seq<Command>, devs: nat)
      requires s != [] && s[0].ctype != EOM
      ensures var c, p := s[0], Process(r, s, devs);
        var storage := c.ctype == STORE || c.ctype == LOAD;
        && (c.ctype == COMPUTE || (c.ctype == STORE && DevId(c) < devs && !WaitSync(c)) ==>
              p == Executed(c, Process(r, SkipOne(s, 0), devs)))
        && (c.ctype == REPLY ==> p == Result(r, [c], [], Replied(c)))
        && (storage && DevId(c) >= devs ==> p == Result(r, [], [], Failed))
        && (storage && DevId(c) < devs && (c.ctype == LOAD || WaitSync(c)) ==>
              p == Result(r.(cur := s[1..]), [c], [], WaitStorage))
        && (c.ctype != COMPUTE && !IsForward(c) && c.ctype != REPLY && !storage ==> p == Result(r, [], [], Stuck))
    {
      hide SkipOne; hide Node.StartForward;
    }

    lemma {:induction false} AtEnd(c: Cursor, devs: nat)
      requires |msg| >= MESSAGE_HEADER && End() <= |msg| && ValidCursor(msg, c, End())
      requires c.Null? || Kind(c) == EOM
      ensures forall r :: Process(r, Seen(c), devs) == Result(r, [], [], Ended)
    {
    }

    lemma {:induction false} AtForwardSame(c: Cursor)
      requires |msg| >= MESSAGE_HEADER && End() <= |msg| && ValidCursor(msg, c, End())
      ensures AtForwardCmd(c) == AtForward(Seen(c))
    {
    }

    /** curr_cmd moves n contexts on. */
    method SkipTo(n: int)
      requires Valid()
      modifies this`currCmd
      ensures Valid() && Seen(currCmd) == Skip(old(Seen(currCmd)), n)
    {
      hide AllFit;
      SkipSuffix(Seen(currCmd), n);
      FitSuffix(Skip(Seen(currCmd), n), Seen(currCmd));
      currCmd := CmdBoundedSkip(msg, currCmd, n, End());
    }

    /** handle_forward_reply, for a reply that carries this request's id and comes from `addr`. */
    method HandleForwardReply(addr: seq<byte>, fwdStatus: u32, devs: nat) returns (out: Outcome, ret: int)
      requires Valid() && AtForward(Seen(currCmd))
      modifies this
      ensures var r := HandleReply(old(Abs()), addr, fwdStatus, devs);
        && Valid() && Abs() == r.req && out == r.outcome && executed == old(executed) + r.done
        && PacketsOf(wire) == PacketsOf(old(wire)) + r.sent
        && ret == ReplyReturn(old(Abs()), addr, fwdStatus, devs)
        && answers == old(answers) + Answer(out, status)
    {
      hide Get32; hide Decode; hide View; hide PacketsOf; hide AllFit; hide Process; hide FindReplyId; hide Skip;
      hide ReplyBytes; hide RespSize;
      var replyId := FindForwardReplyId(currCmd, addr);
      if replyId == -1 || replyId in fwdRepliesMask { return WaitForward, -1; }
      fwdRepliesMask := fwdRepliesMask + {replyId};
      fwdRepliesLeft := fwdRepliesLeft - 1;
      if fwdRepliesLeft <= 0 {
        status := fwdStatus;
        SkipTo(1);
        fwdRepliesMask, fwdRepliesLeft, fwdTimeout, fwdRetries := {}, -1, 0, 0;
        out := ProcessSingleMessage(devs);
        ret := ReturnCode(out);
      } else {
        out, ret := WaitForward, -1;
      }
    }

    /** The end of exec_request, for this request, when the connection to `addr` has been closed. */
    method LoseConnection(addr: seq<byte>, devs: nat) returns (hit: bool, out: Outcome)
      requires Valid()
      modifies this
      ensures Valid() && hit == Severed(old(Abs()), addr)
      ensures !hit ==> Abs() == old(Abs()) && executed == old(executed) && wire == old(wire) && answers == old(answers)
      ensures hit ==>
        var r := FailOver(old(Abs()), devs);
        && Abs() == r.req && out == r.outcome && executed == old(executed) + r.done
        && PacketsOf(wire) == PacketsOf(old(wire)) + r.sent && answers == old(answers) + Answer(out, status)
    {
      hide Get32; hide Decode; hide View; hide PacketsOf; hide AllFit; hide Process; hide ToReply;
      hit, out := false, Dropped;
      if currCmd.Null? { return; }
      Here(currCmd);
      var c := ReadCmd(msg, currCmd.pos, End());
      hit := c.ctype == FORWARD_BEGIN && FwdAddr(c) == addr && FwdRetries(c) == 0;
      if !hit { return; }
      var itr := FindReply(msg, currCmd, End());
      if itr.At? { Here(itr); }
      if itr.Null? || Kind(itr) == EOM { return; }
      ToReplySuffix(Seen(currCmd));
      FitSuffix(ToReply(Seen(currCmd)), Seen(currCmd));
      currCmd, status := itr, ERR;
      out := ProcessSingleMessage(devs);
    }

    /** handle_timeout, once this request's timer has expired. */
    method HandleTimeout(devs: nat) returns (out: Outcome)
      requires Valid()
      modifies this
      ensures var r := Node.HandleTimeout(old(Abs()), devs);
        && Valid() && Abs() == r.req && out == r.outcome && executed == old(executed) + r.done
        && PacketsOf(wire) == PacketsOf(old(wire)) + r.sent
        && answers == old(answers) + Answer(out, status)
    {
      hide Get32; hide Decode; hide View; hide PacketsOf; hide AllFit; hide Process; hide Skip;
      if fwdRetries > 0 {
        fwdRetries := fwdRetries - 1;
        out := ProcessSingleMessage(devs);
      } else if fwdOnFailSkip > 0 {
        SkipTo(fwdOnFailSkip);
        status := TIMEOUT;
        out := ProcessSingleMessage(devs);
      } else {
        status := TIMEOUT;
        out := Dropped;
      }
    }
  }

  /** The round trip of an id: what a node forwards for request `r` is received by another node as the message of
      request `q`; the reply that `q` sends is recognised and carries the id of `r`. */
  lemma {:induction false} ReplyComesBack(r: Request, i: nat, q: Request, o: Outcome, status: u32)
    requires r.Valid() && i < |r.wire| && q.msg == r.wire[i].bytes && |q.msg| >= MESSAGE_HEADER
    requires o.Replied? && MIN_REPLY <= RespSize(o.reply) <= BUF_SIZE
    ensures Framed(r.wire[i].bytes)
    ensures |q.Answer(o, status)| == 1 && ReplyFields(q.Answer(o, status)[0], r.id, status)
  {
    hide Get32; hide Recognised; hide Decode;
    assert Labels(r.wire[i], r.id);
    q.AnswerFields(o, status);
  }
}
