/** The request handlers of src/dw_node.c, as functions on the state of one request.

    NodeRequest.dfy has them as methods over message bytes; here they act on the commands that the request's
    curr_cmd cursor can see, and Network.dfy composes them into runs. */
module Node {
  import opened Layout
  import opened Walk
  import opened Tree

  const TIMEOUT: nat := 1
  const ERR: nat := 2
  const TCP: nat := 1

  /** The fields of req_info_t and the status of its message. The reply mask is the set of its one bits. */
  datatype Req = Req(cur: seq<Command>, left: int, mask: set<nat>, timeout: nat, retries: int, onFailSkip: int,
                     status: nat)

  /** A message of `size` bytes handed to the network: the commands its receiver will see. */
  datatype Packet = Packet(to: seq<byte>, cmds: seq<Command>, size: nat)

  datatype Outcome =
    | Replied(reply: Command) // the REPLY was sent and the request removed
    | Ended                   // no command left
    | WaitStorage             // until the storage worker acknowledges
    | WaitForward             // until enough destinations reply
    | Failed                  // the handler gave up (-1)
    | Stuck                   // unknown command: left as it is (0)
    | Dropped                 // timed out for good and removed

  /** `done` lists the commands executed, `sent` the packets sent, both in order. */
  datatype Result = Result(req: Req, done: seq<Command>, sent: seq<Packet>, outcome: Outcome)

  // Option fields that the node reads.
  function PktSize(opts: seq<byte>): (n: u32) { if |opts| >= 4 then Get32(opts, 0) else 0 }
  function FwdProto(opts: seq<byte>): nat { if |opts| >= 24 then Get32(opts, 20) else 0 }
  function RespSize(c: Command): (n: u32) { if |c.opts| >= 4 then Get32(c.opts, 0) else 0 }
  function FwdTimeout(c: Command): nat { if |c.opts| >= 16 then Get32(c.opts, 12) else 0 }
  function FwdRetries(c: Command): nat { Opt(c, 16) }
  function FwdNAck(c: Command): nat { Opt(c, 17) }
  function FwdOnFailSkip(c: Command): nat { Opt(c, 18) }
  predicate WaitSync(c: Command) { c.ctype == STORE && Opt(c, 16) != 0 }
  function DevId(c: Command): nat { if c.ctype == STORE then Opt(c, 17) else Opt(c, 16) }

  predicate AtForward(s: seq<Command>) {
    s != [] && IsForward(s[0])
  }

  /** The commands of `cs` that lie inside the first `room` bytes. */
  function Clip(cs: seq<Command>, room: int): seq<Command> {
    if cs == [] || CmdTypeSize(cs[0].ctype) > room then []
    else [cs[0]] + Clip(cs[1..], room - CmdTypeSize(cs[0].ctype))
  }

  /** What the receiver sees of a message `cs` that leaves with the packet size of forward options `opts`. */
  function Carried(opts: seq<byte>, cs: seq<Command>): seq<Command> {
    Clip(cs, PktSize(opts) - MESSAGE_HEADER)
  }

  /** A packet that is large enough carries the whole message. */
  lemma {:induction false} ClipWhole(cs: seq<Command>, room: int)
    requires EncodedSize(cs) <= room
    ensures Clip(cs, room) == cs
  {
    if cs != [] { ClipWhole(cs[1..], room - CmdTypeSize(cs[0].ctype)); }
  }

  /** single_start_forward: a destination already recorded is passed over, the others get the tail of
      their branch. */
  function SingleStart(r: Req, s: seq<Command>): (bool, seq<Packet>)
    requires AtForward(s) && AtForward(r.cur)
  {
    var id := FindReplyId(r.cur, FwdAddr(s[0]));
    if id == -1 then (false, [])
    else if r.left != -1 && id in r.mask then (NextForward(s) != [] || Skip(r.cur, 1) != [], [])
    else
      var body := BranchBody(s[1..]);
      if ToReply(body) == [] then (false, [])
      else (true, [Packet(FwdAddr(s[0]), Carried(s[0].opts, ClosedTail(body)), PktSize(s[0].opts))])
  }

  /** The loop of start_forward over the destinations of the context. */
  function SendRound(r: Req, s: seq<Command>): (bool, seq<Packet>)
    requires AtForward(r.cur) && (s != [] ==> IsForward(s[0]))
    decreases |s|
  {
    if s == [] then (true, [])
    else
      var (ok, sent) := SingleStart(r, s);
      if !ok then (false, [])
      else
        var (ok', sent') := SendRound(r, NextForward(s));
        (ok', sent + sent')
  }

  /** start_forward: a context is opened unless one is already being served. */
  function OpenContext(r: Req, c: Command): Req {
    if r.left != -1 then r
    else r.(left := FwdNAck(c), mask := {}, timeout := FwdTimeout(c), retries := FwdRetries(c),
            onFailSkip := FwdOnFailSkip(c))
  }

  function StartForward(r: Req, s: seq<Command>): Result
    requires AtForward(s) && AtForward(r.cur)
  {
    var r1 := OpenContext(r, s[0]);
    var (ok, sent) := SendRound(r1, s);
    Result(r1, [], sent, if ok then WaitForward else Failed)
  }

  function Executed(c: Command, r: Result): Result {
    r.(done := [c] + r.done)
  }

  /** process_single_message, from the command at `s`, on a node with `devs` storage devices. */
  function Process(r: Req, s: seq<Command>, devs: nat): Result
    decreases |s|
  {
    if s == [] || s[0].ctype == EOM then Result(r, [], [], Ended)
    else
      var c := s[0];
      if c.ctype == COMPUTE then Executed(c, Process(r, SkipOne(s, 0), devs))
      else if c.ctype == FORWARD_BEGIN then StartForward(r.(cur := s), s)
      else if c.ctype == FORWARD_CONTINUE then
        if AtForward(r.cur) then StartForward(r, s) else Result(r, [], [], Failed)
      else if c.ctype == REPLY then Result(r, [c], [], Replied(c))
      else if c.ctype == STORE || c.ctype == LOAD then
        if DevId(c) >= devs then Result(r, [], [], Failed)
        else if c.ctype == STORE && !WaitSync(c) then Executed(c, Process(r, SkipOne(s, 0), devs))
        else Result(r.(cur := s[1..]), [c], [], WaitStorage)
      else Result(r, [], [], Stuck)
  }

  /** A request just received, in a slot that held `slot` before: req_alloc only says that no context is open.
      The status is that of the message. */
  function NewReq(slot: Req, status: nat, cmds: seq<Command>): Req {
    slot.(cur := cmds, left := -1, status := status)
  }

  /** handle_forward_reply, for a reply with status `status` coming from `addr`. */
  function HandleReply(r: Req, addr: seq<byte>, status: nat, devs: nat): Result
    requires AtForward(r.cur)
  {
    var id := FindReplyId(r.cur, addr);
    if id == -1 || id in r.mask then Result(r, [], [], WaitForward)
    else if r.left - 1 > 0 then Result(r.(mask := r.mask + {id}, left := r.left - 1), [], [], WaitForward)
    else
      var r1 := r.(cur := Skip(r.cur, 1), mask := {}, left := -1, timeout := 0, retries := 0, status := status);
      Process(r1, r1.cur, devs)
  }

  /** The reply from `addr` is the last one that the request waits for. */
  predicate Completes(r: Req, addr: seq<byte>)
    requires AtForward(r.cur)
  {
    var id := FindReplyId(r.cur, addr);
    id != -1 && id !in r.mask && r.left - 1 <= 0
  }

  /** What process_single_message returns: 1 when the message is done with, -1 on an error, 0 when the request
      has suspended. */
  function ReturnCode(o: Outcome): int {
    if o.Replied? || o.Ended? then 1 else if o.Failed? || o.Dropped? then -1 else 0
  }

  /** What handle_forward_reply returns. Its caller takes 0 for a failure, and closes the connection that the
      reply came on: that is when the last reply resumes the request and it suspends again. */
  function ReplyReturn(r: Req, addr: seq<byte>, status: nat, devs: nat): int
    requires AtForward(r.cur)
  {
    if Completes(r, addr) then ReturnCode(HandleReply(r, addr, status, devs).outcome) else -1
  }

  /** A request that exec_request gives up when it has closed the connection to `addr`: its cursor is on a context
      whose first destination that is, without retries. */
  predicate Severed(r: Req, addr: seq<byte>) {
    r.cur != [] && r.cur[0].ctype == FORWARD_BEGIN && FwdAddr(r.cur[0]) == addr && FwdRetries(r.cur[0]) == 0
  }

  /** What it does with such a request: it goes to the REPLY with an error status, or, without one, closes the
      connection that the request came on. */
  function FailOver(r: Req, devs: nat): Result {
    var s := ToReply(r.cur);
    if s == [] || s[0].ctype == EOM then Result(r, [], [], Dropped) else Process(r.(cur := s, status := ERR), s, devs)
  }

  /** handle_timeout, once the request's timer has expired. */
  function HandleTimeout(r: Req, devs: nat): Result {
    if r.retries > 0 then
      Process(r.(retries := r.retries - 1), r.cur, devs)
    else if r.onFailSkip > 0 then
      var r1 := r.(cur := Skip(r.cur, r.onFailSkip), status := TIMEOUT);
      Process(r1, r1.cur, devs)
    else Result(r.(status := TIMEOUT), [], [], Dropped)
  }

  // ---------- a forward round, on a context ----------

  /** The packet for the first destination of a context: its branch program. */
  function Branch(c: Ctx): Packet
    requires c.dests != [] && |c.dests[0]| == FWD_OPTS
  {
    Packet(Addr(c.dests[0]), Carried(c.dests[0], Flat(c.body, [EomCommand])), PktSize(c.dests[0]))
  }

  /** The packets a round owes: to each destination whose bit is clear, its branch program. `i` is the
      id of the first destination of `c`. */
  function Owed(c: Ctx, branched: bool, i: nat, mask: set<nat>): seq<Packet>
    requires GoodCtx(c, branched)
    decreases |Dests(c)|
  {
    GoodDests(c, branched);
    (if i in mask then [] else [Branch(c)])
    + if |Dests(c)| > 1 then Owed(NextCtx(c), branched, i + 1, mask) else []
  }

  /** What a round sends, by the first destination. */
  lemma {:induction false} OwedStep(c: Ctx, branched: bool, i: nat, mask: set<nat>)
    requires GoodCtx(c, branched)
    ensures c.dests != [] && Dests(c) != [] && c.dests[0] == Dests(c)[0] && |c.dests[0]| == FWD_OPTS
    ensures |Dests(c)| > 1 ==> (|c.dests| > 1 || c.More?) && GoodCtx(NextCtx(c), branched)
    ensures var head := if i in mask then [] else [Branch(c)];
      Owed(c, branched, i, mask) == if |Dests(c)| > 1 then head + Owed(NextCtx(c), branched, i + 1, mask) else head
  {
    hide Flat;
    GoodDests(c, branched);
  }

  /** Dests(c) is the end of Dests(full), from id `i` on. */
  ghost predicate TailFrom(full: Ctx, c: Ctx, i: nat) {
    i < |Dests(full)| && Dests(c) == Dests(full)[i..]
  }

  ghost predicate DistinctCtx(c: Ctx) {
    SizedDests(Dests(c)) && DistinctAddrs(Dests(c))
  }

  lemma {:induction false} SingleSends(r: Req, full: Ctx, c: Ctx, branched: bool, tag: u32, t: seq<Command>, i: nat)
    requires GoodCtx(full, branched) && GoodCtx(c, branched) && IsTag(tag)
    requires DistinctCtx(full) && TailFrom(full, c, i)
    requires t != [] && t[0].ctype != FORWARD_CONTINUE && r.cur == FlatCtx(full, FORWARD_BEGIN, t) && r.left != -1
    ensures AtForward(r.cur) && AtForward(FlatCtx(c, tag, t)) && |c.dests[0]| == FWD_OPTS
    ensures SingleStart(r, FlatCtx(c, tag, t))
         == (true, if i in r.mask then [] else [Branch(c)])
  {
    hide ToReply; hide BranchBody; hide FlatCtx; hide Flat; hide FindReplyId;
    var s := FlatCtx(c, tag, t);
    NextDest(c, tag, branched, t);
    NextDest(full, FORWARD_BEGIN, branched, t);
    GoodDests(c, branched);
    FindIsIndex(full, FORWARD_BEGIN, branched, t, FwdAddr(s[0]));
    assert c.dests[0] == Dests(c)[0] == Dests(full)[i];
    assert FwdAddr(s[0]) == Addr(c.dests[0]) && s[0].opts == c.dests[0];
    assert FindReplyId(r.cur, FwdAddr(s[0])) == i;
    assert Skip(r.cur, 1) == t by { SkipCtx(full, FORWARD_BEGIN, branched, t, 0); }
    BranchTail(c, tag, branched, t);
    FlatHead(c.body, []);
  }

  /** start_forward's loop sends to exactly the destinations whose bit is clear, in order, each its own branch. */
  lemma {:induction false} RoundSends(r: Req, full: Ctx, c: Ctx, branched: bool, tag: u32, t: seq<Command>, i: nat)
    requires GoodCtx(full, branched) && GoodCtx(c, branched) && IsTag(tag)
    requires DistinctCtx(full) && TailFrom(full, c, i)
    requires t != [] && t[0].ctype != FORWARD_CONTINUE && r.cur == FlatCtx(full, FORWARD_BEGIN, t) && r.left != -1
    ensures AtForward(r.cur) && AtForward(FlatCtx(c, tag, t))
    ensures SendRound(r, FlatCtx(c, tag, t)) == (true, Owed(c, branched, i, r.mask))
    decreases |Dests(c)|
  {
    hide FlatCtx; hide Flat; hide SingleStart;
    SingleSends(r, full, c, branched, tag, t, i);
    NextDest(c, tag, branched, t);
    if |Dests(c)| > 1 {
      RoundSends(r, full, NextCtx(c), branched, FORWARD_CONTINUE, t, i + 1);
    }
  }

  // ---------- messages that are no programs ----------

  /** What process_single_message makes of the rest: nothing left or an EOM ends the request; a command that it does not
      know leaves it as it is; a FORWARD_CONTINUE is an error unless the request is in a context. */
  lemma {:induction false} OddCommands(r: Req, s: seq<Command>, devs: nat)
    ensures s == [] || s[0].ctype == EOM ==> Process(r, s, devs) == Result(r, [], [], Ended)
    ensures s != [] && (s[0].ctype == PSKIP || s[0].ctype > EOM) ==> Process(r, s, devs) == Result(r, [], [], Stuck)
    ensures s != [] && s[0].ctype == FORWARD_CONTINUE && !AtForward(r.cur)
            ==> Process(r, s, devs) == Result(r, [], [], Failed)
  {
    hide SkipOne; hide StartForward;
  }

  /** A context whose first branch runs out of the message is an error, and nothing is sent for it. */
  lemma {:induction false} BranchMissing(r: Req, s: seq<Command>, devs: nat)
    requires s != [] && s[0].ctype == FORWARD_BEGIN && r.left == -1 && ToReply(BranchBody(s[1..])) == []
    ensures var res := Process(r, s, devs);
      res.outcome == Failed && res.sent == [] && res.done == [] && res.req.cur == s
  {
    hide ToReply; hide BranchBody;
    assert FindReplyId(s, FwdAddr(s[0])) == 0;
  }
}
