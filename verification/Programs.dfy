/** What a request means: the tree semantics of its program, the programs that the network can serve, and when
    the connections that nodes close themselves do no harm. */
module Programs {
  import opened Layout
  import opened Walk
  import opened Tree
  import opened Node
  import opened ReplyMessage

  // ---------- the meaning of a program ----------

  /** Node `at` executed `cmd`. */
  datatype Event = Event(at: seq<byte>, cmd: Command)

  /** `m` is an interleaving of all of `parts`, each kept in its own order. */
  ghost predicate Interleaves(parts: seq<seq<Event>>, m: seq<Event>)
    decreases |m|
  {
    if m == [] then forall j :: 0 <= j < |parts| ==> parts[j] == []
    else exists j :: 0 <= j < |parts| && TakesFrom(parts, j, m[0]) && Interleaves(parts[j := parts[j][1..]], m[1..])
  }

  ghost predicate TakesFrom(parts: seq<seq<Event>>, j: nat, e: Event) {
    j < |parts| && parts[j] != [] && parts[j][0] == e
  }

  /** The program of destination i. */
  function BodyAt(c: Ctx, i: nat): (p: Prog)
    requires i < |Dests(c)|
    ensures Length(p) <= LengthCtx(c)
  {
    if i < |c.dests| then c.body else BodyAt(c.next, i - |c.dests|)
  }

  lemma {:induction false} LengthPositive(p: Prog)
    ensures Length(p) > 0
  {
    match p
    case Done(_) =>
    case Do(_, rest) => LengthPositive(rest);
    case Forward(_, rest) => LengthPositive(rest);
  }

  /** The tree semantics: `m` is a possible log of program `p` on node `at`. Commands run in order on their
      own node; a context runs one copy of a branch program on each of its destinations, in any
      interleaving, and all of them finish before the program goes on. */
  ghost predicate Meaning(p: Prog, at: seq<byte>, m: seq<Event>)
    requires Good(p)
    decreases Length(p), 0
  {
    match p
    case Done(reply) => m == [Event(at, reply)]
    case Do(cmd, rest) => m != [] && m[0] == Event(at, cmd) && Meaning(rest, at, m[1..])
    case Forward(ctx, rest) =>
      LengthPositive(rest);
      GoodDests(ctx, BranchedCtx(ctx));
      exists k: nat, parts: seq<seq<Event>> ::
        && k <= |m| && |parts| == |Dests(ctx)| && Interleaves(parts, m[..k])
        && (forall i :: 0 <= i < |parts| ==> BranchLog(ctx, i, parts[i]))
        && Meaning(rest, at, m[k..])
  }

  ghost predicate BranchLog(c: Ctx, i: nat, m: seq<Event>)
    requires GoodCtx(c, BranchedCtx(c)) && i < |Dests(c)|
    decreases LengthCtx(c), 1
  {
    GoodDests(c, BranchedCtx(c));
    GoodBody(c, BranchedCtx(c), i);
    Meaning(BodyAt(c, i), Addr(Dests(c)[i]), m)
  }

  lemma {:induction false} GoodBody(c: Ctx, branched: bool, i: nat)
    requires GoodCtx(c, branched) && i < |Dests(c)|
    ensures Good(BodyAt(c, i))
  {
    if i >= |c.dests| { GoodBody(c.next, branched, i - |c.dests|); }
  }

  // ---------- programs the network can serve ----------

  type Devices = seq<byte> -> nat

  // ---------- the nodes a program uses ----------

  function Host(d: seq<byte>): seq<byte> {
    if |d| == FWD_OPTS then Addr(d) else []
  }

  function Hosts(ds: seq<seq<byte>>): (r: set<seq<byte>>)
    ensures forall i :: 0 <= i < |ds| ==> Host(ds[i]) in r
  {
    set i | 0 <= i < |ds| :: Host(ds[i])
  }

  /** Every node that a program forwards to, directly or not. */
  function NodesOf(p: Prog): set<seq<byte>> {
    match p
    case Done(_) => {}
    case Do(_, rest) => NodesOf(rest)
    case Forward(ctx, rest) => NodesCtx(ctx) + NodesOf(rest)
  }

  function NodesCtx(c: Ctx): set<seq<byte>> {
    Hosts(c.dests) + NodesOf(c.body) + if c.Last? then {} else NodesCtx(c.next)
  }

  /** The nodes that serve the branch of destination i. */
  function Zone(c: Ctx, i: nat): set<seq<byte>>
    requires i < |Dests(c)|
  {
    {Host(Dests(c)[i])} + NodesOf(BodyAt(c, i))
  }

  lemma {:induction false} ZoneInside(c: Ctx, i: nat)
    requires i < |Dests(c)|
    ensures Zone(c, i) <= NodesCtx(c)
  {
    if i >= |c.dests| {
      ZoneInside(c.next, i - |c.dests|);
      assert Dests(c)[i] == Dests(c.next)[i - |c.dests|];
    } else {
      assert Dests(c)[i] == c.dests[i];
    }
  }

  /** The branches of a context run on different nodes, none of which is the node that forwards. */
  ghost predicate Separate(c: Ctx, at: seq<byte>) {
    && (forall i :: 0 <= i < |Dests(c)| ==> at !in Zone(c, i))
    && (forall i, j :: 0 <= i < j < |Dests(c)| ==> Zone(c, i) !! Zone(c, j))
  }

  /** The packet for each destination is large enough for the header and its branch program. */
  ghost predicate Roomy(c: Ctx) {
    forall j :: 0 <= j < |Dests(c)| ==> MESSAGE_HEADER + EncodedSize(Msg(BodyAt(c, j))) <= PktSize(Dests(c)[j])
  }

  /** Forwards go over TCP, in packets that fit in a buffer. */
  predicate Sendable(d: seq<byte>) {
    FwdProto(d) == TCP && PktSize(d) <= BUF_SIZE
  }

  /** Storage device ids exist on the node that uses them; replies are large enough to be recognised; each context
      waits for all of its destinations, at most 31 and with distinct addresses, in packets that hold their
      branches; and no node serves two requests of the tree at once. */
  ghost predicate Runnable(p: Prog, at: seq<byte>, devs: Devices)
    requires Good(p)
  {
    match p
    case Done(reply) => MIN_REPLY <= RespSize(reply) <= BUF_SIZE
    case Do(cmd, rest) => (cmd.ctype != COMPUTE ==> DevId(cmd) < devs(at)) && Runnable(rest, at, devs)
    case Forward(ctx, rest) =>
      && ctx.dests != [] && DistinctCtx(ctx) && |Dests(ctx)| <= 31 && Roomy(ctx)
      && FwdNAck(Command(FORWARD_BEGIN, ctx.dests[0])) == |Dests(ctx)| && Separate(ctx, at)
      && RunnableCtx(ctx, BranchedCtx(ctx), devs) && Runnable(rest, at, devs)
  }

  ghost predicate RunnableCtx(c: Ctx, branched: bool, devs: Devices)
    requires GoodCtx(c, branched)
  {
    && (forall i :: 0 <= i < |c.dests| ==>
          GoodDest(c.dests[i], branched) && Sendable(c.dests[i]) && Runnable(c.body, Addr(c.dests[i]), devs))
    && (c.More? ==> RunnableCtx(c.next, branched, devs))
  }

  lemma {:induction false} RunnableBody(c: Ctx, branched: bool, devs: Devices, i: nat)
    requires GoodCtx(c, branched) && RunnableCtx(c, branched, devs) && i < |Dests(c)|
    ensures Good(BodyAt(c, i)) && |Dests(c)[i]| == FWD_OPTS && Runnable(BodyAt(c, i), Addr(Dests(c)[i]), devs)
  {
    GoodBody(c, branched, i);
    GoodDests(c, branched);
    if i >= |c.dests| { RunnableBody(c.next, branched, devs, i - |c.dests|); }
    else { assert Dests(c)[i] == c.dests[i]; }
  }

  /** The message of a program: its commands and the EOM. */
  function Msg(p: Prog): seq<Command> {
    Flat(p, [EomCommand])
  }

  ghost predicate IsProg(s: seq<Command>, at: seq<byte>, devs: Devices) {
    exists p :: Good(p) && Runnable(p, at, devs) && s == Msg(p)
  }

  /** The program a message encodes, when it encodes one. */
  ghost function ProgOf(s: seq<Command>): Prog {
    if exists p :: Good(p) && s == Msg(p) then var p :| Good(p) && s == Msg(p); p else Done(EomCommand)
  }

  lemma {:induction false} ProgOfMsg(p: Prog)
    requires Good(p)
    ensures ProgOf(Msg(p)) == p
  {
    hide Flat;
    var q := ProgOf(Msg(p));
    assert Good(q) && Msg(q) == Msg(p);
    FlatInjective(q, [EomCommand], p, [EomCommand]);
  }

  // ---------- connections that the node closes itself ----------

  predicate Suspends(c: Command) {
    c.ctype == LOAD || WaitSync(c)
  }

  /** The first destination of a context is `x`, without retries. */
  predicate Severs(c: Ctx, x: seq<byte>) {
    c.dests != [] && Host(c.dests[0]) == x && FwdRetries(Command(FORWARD_BEGIN, c.dests[0])) == 0
  }

  /** When the last reply to a context comes from `x`, the node goes on with `q`, and if it suspends again closes
      its connection to `x`. This does no harm: `q` does not forward to `x` before it suspends, nor does it suspend
      on storage right in front of a context that would be given up. */
  predicate Clear(q: Prog, x: seq<byte>) {
    match q
    case Done(_) => true
    case Do(cmd, rest) => if Suspends(cmd) then !(rest.Forward? && Severs(rest.ctx, x)) else Clear(rest, x)
    case Forward(ctx, _) => forall i :: 0 <= i < |Dests(ctx)| ==> Host(Dests(ctx)[i]) != x
  }

  /** No connection that a node closes itself is still needed, anywhere in the tree, whichever reply comes last. */
  predicate Apart(p: Prog) {
    match p
    case Done(_) => true
    case Do(_, rest) => Apart(rest)
    case Forward(ctx, rest) => ClearOf(ctx, rest) && ApartCtx(ctx) && Apart(rest)
  }

  predicate ApartCtx(c: Ctx) {
    Apart(c.body) && (c.More? ==> ApartCtx(c.next))
  }

  predicate ClearOf(c: Ctx, rest: Prog) {
    forall i :: 0 <= i < |Dests(c)| ==> Clear(rest, Host(Dests(c)[i]))
  }

  lemma {:induction false} ApartBody(c: Ctx, i: nat)
    requires i < |Dests(c)| && ApartCtx(c)
    ensures Apart(BodyAt(c, i))
  {
    if i >= |c.dests| { ApartBody(c.next, i - |c.dests|); }
  }

  // ---------- how far a node gets in one go ----------

  /** The program suspends before its REPLY. */
  predicate Halts(p: Prog) {
    match p
    case Done(_) => false
    case Do(cmd, rest) => Suspends(cmd) || Halts(rest)
    case Forward(_, _) => true
  }

  /** The commands in front of the first one that suspends or that names a storage device the node does not have; the
      REPLY is not among them. */
  function Prefix(p: Prog, devs: nat): seq<Command> {
    if p.Do? && !Suspends(p.cmd) && !NoDevice(p.cmd, devs) then [p.cmd] + Prefix(p.rest, devs) else []
  }

  predicate NoDevice(c: Command, devs: nat) {
    c.ctype != COMPUTE && DevId(c) >= devs
  }

  /** What is left behind that prefix. */
  function Behind(p: Prog, devs: nat): Prog {
    if p.Do? && !Suspends(p.cmd) && !NoDevice(p.cmd, devs) then Behind(p.rest, devs) else p
  }

  /** What process_single_message does with any program, whether or not the node has its devices: it executes the
      prefix, and then replies, suspends with the cursor behind the storage command, forwards, or fails on the missing
      device without executing it. */
  lemma {:induction false} ServesPrefix(p: Prog, r: Req, devs: nat)
    requires Good(p)
    ensures var res, q, done := Process(r, Msg(p), devs), Behind(p, devs), Prefix(p, devs);
      && (q.Done? ==> res == Result(r, done + [q.reply], [], Replied(q.reply)))
      && (q.Do? && NoDevice(q.cmd, devs) ==> res == Result(r, done, [], Failed))
      && (q.Do? && !NoDevice(q.cmd, devs) ==>
            Suspends(q.cmd) && res == Result(r.(cur := Msg(q.rest)), done + [q.cmd], [], WaitStorage))
      && (q.Forward? ==> AtForward(Msg(q)) && res.done == done
                         && res.(done := []) == StartForward(r.(cur := Msg(q)), Msg(q)))
    decreases p
  {
    hide StartForward; hide SkipOne; hide FlatCtx;
    FlatHead(p, [EomCommand]);
    if p.Do? {
      SkipItem(p, [EomCommand]);
      if !Suspends(p.cmd) && !NoDevice(p.cmd, devs) { ServesPrefix(p.rest, r, devs); }
    } else if p.Forward? {
      FlatCtxHead(p.ctx, FORWARD_BEGIN, Flat(p.rest, [EomCommand]));
      StartsNothing(r.(cur := Msg(p)), Msg(p));
    }
  }

  lemma {:induction false} StartsNothing(r: Req, s: seq<Command>)
    requires AtForward(s) && AtForward(r.cur)
    ensures StartForward(r, s).done == []
  {
  }

  // ---------- giving a program up ----------

  /** The REPLY that ends a program. */
  function LastReply(p: Prog): Command {
    if p.Done? then p.reply else LastReply(p.rest)
  }

  lemma {:induction false} JumpToReply(p: Prog, t: seq<Command>)
    requires Good(p)
    ensures ToReply(Flat(p, t)) == [LastReply(p)] + t
    decreases p
  {
    hide SkipOne; hide FlatCtx;
    FlatHead(p, t);
    if !p.Done? {
      SkipItem(p, t);
      JumpToReply(p.rest, t);
    }
  }

  lemma {:induction false} LastReplyGood(p: Prog, at: seq<byte>, devs: Devices)
    requires Good(p) && Runnable(p, at, devs)
    ensures Sized(LastReply(p)) && LastReply(p).ctype == REPLY && RespSize(LastReply(p)) >= MIN_REPLY
  {
    if !p.Done? { LastReplyGood(p.rest, at, devs); }
  }

  /** A request that is given up sends its REPLY at once. */
  lemma {:induction false} FailOverReplies(p: Prog, r: Req, at: seq<byte>, devs: Devices)
    requires Good(p) && Runnable(p, at, devs) && r.cur == Msg(p)
    ensures var c := LastReply(p);
      && RespSize(c) >= MIN_REPLY
      && FailOver(r, devs(at)) == Result(r.(cur := [c, EomCommand], status := ERR), [c], [], Replied(c))
  {
    hide Flat; hide ToReply;
    JumpToReply(p, [EomCommand]);
    LastReplyGood(p, at, devs);
    assert [LastReply(p)] + [EomCommand] == [LastReply(p), EomCommand];
  }

  /** Which requests are given up when the connection to `x` is closed. */
  lemma {:induction false} SeveredMsg(p: Prog, r: Req, x: seq<byte>)
    requires Good(p) && r.cur == Msg(p)
    ensures Severed(r, x) <==> p.Forward? && Severs(p.ctx, x)
  {
    FlatHead(p, [EomCommand]);
    if p.Forward? {
      GoodDests(p.ctx, BranchedCtx(p.ctx));
      assert GoodDest(p.ctx.dests[0], BranchedCtx(p.ctx));
      FlatCtxHead(p.ctx, FORWARD_BEGIN, Flat(p.rest, [EomCommand]));
    }
  }
}
