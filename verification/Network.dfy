/** A request running over the network: every interleaving of deliveries, storage acknowledgements and
    forward replies executes the tree that its message encodes, unless a node closes a connection it still needs. */
module Network {
  import opened Layout
  import opened Walk
  import opened Tree
  import opened Node
  import opened Sets
  import opened ReplyMessage
  import opened Programs

  // ---------- the network ----------

  /** A request being served on node `at`, with the requests it forwarded and not yet moved past. */
  datatype Act = Act(at: seq<byte>, req: Req, wait: Outcome, kids: seq<Kid>)

  /** A request forwarded to node `to` with the commands `cmds`; `open`: over a connection that is still there. */
  datatype Kid = Kid(to: seq<byte>, cmds: seq<Command>, open: bool, state: KidState)

  datatype KidState =
    | Sent              // the forwarded message is on its way
    | Running(act: Act) // being served; once Replied, its reply is on its way
    | Recorded          // the reply was handled

  function Log(at: seq<byte>, cs: seq<Command>): (m: seq<Event>)
    ensures |m| == |cs|
  {
    if cs == [] then [] else [Event(at, cs[0])] + Log(at, cs[1..])
  }

  function Launch(ps: seq<Packet>): (ks: seq<Kid>)
    ensures |ks| == |ps| && forall i :: 0 <= i < |ks| ==> ks[i] == Kid(ps[i].to, ps[i].cmds, true, Sent)
  {
    if ps == [] then [] else [Kid(ps[0].to, ps[0].cmds, true, Sent)] + Launch(ps[1..])
  }

  function Resume(at: seq<byte>, r: Result, orphans: seq<Kid>): Act {
    Act(at, r.req, r.outcome, orphans + Launch(r.sent))
  }

  /** A message arrives and is served until it suspends; the request is given the slot that held `slot`. */
  function Received(at: seq<byte>, slot: Req, status: nat, cmds: seq<Command>, devs: Devices): Result {
    Process(NewReq(slot, status, cmds), cmds, devs(at))
  }

  function Unfinished(ks: seq<Kid>): seq<Kid> {
    if ks == [] then [] else (if ks[0].state.Recorded? then [] else [ks[0]]) + Unfinished(ks[1..])
  }

  /** The storage worker's acknowledgement arrives. */
  ghost predicate StorageAck(a: Act, b: Act, evs: seq<Event>, devs: Devices) {
    && a.wait.WaitStorage?
    && var r := Process(a.req, a.req.cur, devs(a.at));
    && b == Resume(a.at, r, a.kids) && evs == Log(a.at, r.done)
  }

  function WithKid(a: Act, j: nat, state: KidState): Act
    requires j < |a.kids|
  {
    a.(kids := a.kids[j := a.kids[j].(state := state)])
  }

  /** The message forwarded to kid j is delivered and served until it suspends. */
  ghost predicate Delivery(a: Act, b: Act, evs: seq<Event>, devs: Devices, j: nat) {
    exists slot, status :: DeliveryTo(a, b, evs, devs, j, slot, status)
  }

  ghost predicate DeliveryTo(a: Act, b: Act, evs: seq<Event>, devs: Devices, j: nat, slot: Req, status: nat) {
    && j < |a.kids| && a.kids[j].state.Sent?
    && var k := a.kids[j];
    var r := Received(k.to, slot, status, k.cmds, devs);
    && b == WithKid(a, j, Running(Resume(k.to, r, []))) && evs == Log(k.to, r.done)
  }

  /** A connection that node `at` closes: the one to node `to`. */
  datatype Cut = NoCut | Cut(at: seq<byte>, to: seq<byte>)

  /** The reply of kid j, if it is recognised as one, reaches the node that forwarded to it. When the handler
      returns 0 the node closes the connection that the reply came on. */
  ghost predicate ReplyArrival(a: Act, b: Act, evs: seq<Event>, cut: Cut, devs: Devices, j: nat) {
    && j < |a.kids| && a.kids[j].open && a.kids[j].state.Running? && a.kids[j].state.act.wait.Replied?
    && RespSize(a.kids[j].state.act.wait.reply) >= MIN_REPLY
    && a.wait.WaitForward? && AtForward(a.req.cur)
    && var k := a.kids[j];
    var status := k.state.act.req.status;
    var r := HandleReply(a.req, k.to, status, devs(a.at));
    var kids := WithKid(a, j, Recorded).kids;
    && b == Resume(a.at, r, if Completes(a.req, k.to) then Unfinished(kids) else kids)
    && evs == Log(a.at, r.done)
    && cut == if ReplyReturn(a.req, k.to, status, devs(a.at)) == 0 then Cut(a.at, k.to) else NoCut
  }

  /** One step anywhere in the network; `evs` are the commands it executes, `cut` the connection it closes. */
  ghost predicate Step(a: Act, b: Act, evs: seq<Event>, cut: Cut, devs: Devices)
    decreases a
  {
    || (StorageAck(a, b, evs, devs) && cut == NoCut)
    || exists j: nat ::
         && j < |a.kids|
         && (|| (Delivery(a, b, evs, devs, j) && cut == NoCut)
             || ReplyArrival(a, b, evs, cut, devs, j) || KidStep(a, b, evs, cut, devs, j))
  }

  /** Some step inside the request that kid j is serving. */
  ghost predicate KidStep(a: Act, b: Act, evs: seq<Event>, cut: Cut, devs: Devices, j: nat)
    requires j < |a.kids|
    decreases a, 0
  {
    && a.kids[j].state.Running?
    && exists k :: Step(a.kids[j].state.act, k, evs, cut, devs) && b == WithKid(a, j, Running(k))
  }

  // ---------- closing a connection ----------

  predicate Live(a: Act) {
    a.wait.WaitStorage? || a.wait.WaitForward?
  }

  /** What becomes of all requests when node `n` closes its connection to `x`: on that node, whatever was forwarded
      to `x` can no longer answer, and a request on a context that starts with `x` is given up (exec_request). */
  function Hang(a: Act, n: seq<byte>, x: seq<byte>, devs: Devices): (b: Act)
    ensures b.at == a.at && |b.kids| == |a.kids|
    decreases a, 1, 0
  {
    var kids := HangKids(a, 0, n, x, devs);
    if Hit(a, n, x) then
      var r := FailOver(a.req, devs(a.at));
      Act(a.at, r.req, r.outcome, kids)
    else a.(kids := kids)
  }

  /** The request is given up. */
  predicate Hit(a: Act, n: seq<byte>, x: seq<byte>) {
    a.at == n && Live(a) && Severed(a.req, x)
  }

  function HangKids(a: Act, i: nat, n: seq<byte>, x: seq<byte>, devs: Devices): (ks: seq<Kid>)
    requires i <= |a.kids|
    ensures |ks| == |a.kids| - i && forall j :: 0 <= j < |ks| ==> ks[j] == HangKid(a.kids[i + j], a.at == n, n, x, devs)
    decreases a, 0, |a.kids| - i
  {
    if i == |a.kids| then [] else [HangKid(a.kids[i], a.at == n, n, x, devs)] + HangKids(a, i + 1, n, x, devs)
  }

  function HangKid(k: Kid, here: bool, n: seq<byte>, x: seq<byte>, devs: Devices): Kid
    decreases k, 0, 0
  {
    Kid(k.to, k.cmds, k.open && !(here && k.to == x),
        if k.state.Running? then Running(Hang(k.state.act, n, x, devs)) else k.state)
  }

  /** What is executed meanwhile: the REPLY of each request that is given up. */
  function HangLog(a: Act, n: seq<byte>, x: seq<byte>, devs: Devices): seq<Event>
    decreases a, 1, 0
  {
    (if Hit(a, n, x) then Log(a.at, FailOver(a.req, devs(a.at)).done) else []) + HangKidsLog(a, 0, n, x, devs)
  }

  function HangKidsLog(a: Act, i: nat, n: seq<byte>, x: seq<byte>, devs: Devices): seq<Event>
    requires i <= |a.kids|
    decreases a, 0, |a.kids| - i
  {
    if i == |a.kids| then []
    else
      (if a.kids[i].state.Running? then HangLog(a.kids[i].state.act, n, x, devs) else [])
      + HangKidsLog(a, i + 1, n, x, devs)
  }

  function Settled(a: Act, cut: Cut, devs: Devices): Act {
    if cut.NoCut? then a else Hang(a, cut.at, cut.to, devs)
  }

  function SettleLog(a: Act, cut: Cut, devs: Devices): seq<Event> {
    if cut.NoCut? then [] else HangLog(a, cut.at, cut.to, devs)
  }

  /** A step and what comes of the connection it closes. */
  ghost predicate Whole(a: Act, b: Act, evs: seq<Event>, devs: Devices) {
    exists a1, evs1, cut ::
      Step(a, a1, evs1, cut, devs) && b == Settled(a1, cut, devs) && evs == evs1 + SettleLog(a1, cut, devs)
  }

  // ---------- the invariant of every reachable state ----------

  /** Whatever connections were closed: each request that waits has a program left that the network can serve, with
      the replies counted right; a request that was given up may leave some that it forwarded behind. */
  ghost predicate Inv(a: Act, devs: Devices)
    decreases a, 1
  {
    match a.wait
    case Replied(reply) => RespSize(reply) >= MIN_REPLY && forall i :: 0 <= i < |a.kids| ==> Served(a.kids[i], devs)
    case WaitStorage => a.kids == [] && a.req.left == -1 && IsProg(a.req.cur, a.at, devs)
    case WaitForward =>
      && IsProg(a.req.cur, a.at, devs) && ProgOf(a.req.cur).Forward?
      && |a.kids| == |Dests(ProgOf(a.req.cur).ctx)| && DistinctCtx(ProgOf(a.req.cur).ctx)
      && a.req.mask == RecordedIds(a.kids) && a.req.left == |a.kids| - |a.req.mask| >= 1
      && forall i :: 0 <= i < |a.kids| ==> KidInv(a.kids[i], ProgOf(a.req.cur).ctx, i, devs)
    case _ => false
  }

  function RecordedIds(ks: seq<Kid>): set<nat> {
    set i: nat | i < |ks| && ks[i].state.Recorded?
  }

  /** A forwarded request carries a program, and is served on the node it was sent to. */
  ghost predicate Served(k: Kid, devs: Devices)
    decreases k, 0
  {
    IsProg(k.cmds, k.to, devs) && (k.state.Running? ==> k.state.act.at == k.to && Inv(k.state.act, devs))
  }

  /** Kid i answers for destination i, and was sent exactly that destination's branch program. */
  ghost predicate KidInv(k: Kid, c: Ctx, i: nat, devs: Devices)
    requires i < |Dests(c)| && SizedDests(Dests(c))
    decreases k, 1
  {
    k.to == Addr(Dests(c)[i]) && k.cmds == Msg(BodyAt(c, i)) && Served(k, devs)
  }

  /** No connection that is still needed was closed: nothing is left behind and everything can answer. */
  ghost predicate Intact(a: Act)
    decreases a
  {
    && (a.wait.Replied? ==> a.kids == []) && (Live(a) ==> Apart(ProgOf(a.req.cur)))
    && forall i :: 0 <= i < |a.kids| ==> Joined(a.kids[i])
  }

  ghost predicate Joined(k: Kid)
    decreases k
  {
    k.open && (k.state.Running? ==> Intact(k.state.act))
  }

  // ---------- what is left to log ----------

  /** `m` is a possible log of all that remains to be done. */
  ghost predicate Rest(a: Act, m: seq<Event>)
    decreases a, 1
  {
    match a.wait
    case Replied(_) => m == []
    case WaitStorage => Good(ProgOf(a.req.cur)) && Meaning(ProgOf(a.req.cur), a.at, m)
    case WaitForward => exists k: nat, parts: seq<seq<Event>> :: SplitRest(a, m, k, parts)
    case _ => false
  }

  /** The first k events of `m` interleave what remains of the kids, the others what follows the context. */
  ghost predicate SplitRest(a: Act, m: seq<Event>, k: nat, parts: seq<seq<Event>>)
    decreases a, 0
  {
    var p := ProgOf(a.req.cur);
    && p.Forward? && Good(p)
    && k <= |m| && |parts| == |a.kids| && Interleaves(parts, m[..k])
    && (forall i :: 0 <= i < |parts| ==> KidRest(a.kids[i], parts[i]))
    && Meaning(p.rest, a.at, m[k..])
  }

  ghost predicate KidRest(k: Kid, m: seq<Event>)
    decreases k
  {
    match k.state
    case Sent => Good(ProgOf(k.cmds)) && Meaning(ProgOf(k.cmds), k.to, m)
    case Running(b) => Rest(b, m)
    case Recorded => m == []
  }

  // ---------- how many steps are left ----------

  function Repeat(n: nat, w: nat): nat {
    if n == 0 then 0 else w + Repeat(n - 1, w)
  }

  function Weight(p: Prog): nat {
    match p
    case Done(_) => 2
    case Do(_, rest) => 1 + Weight(rest)
    case Forward(ctx, rest) => 1 + WeightCtx(ctx) + Weight(rest)
  }

  function WeightCtx(c: Ctx): nat {
    Repeat(|c.dests|, 1 + Weight(c.body)) + if c.Last? then 0 else WeightCtx(c.next)
  }

  /** A bound on the steps still to come. */
  ghost function Work(a: Act): nat
    decreases a, 1, 0
  {
    match a.wait
    case Replied(_) => 1
    case WaitStorage => Weight(ProgOf(a.req.cur))
    case WaitForward =>
      var p := ProgOf(a.req.cur);
      KidsWork(a, 0) + if p.Forward? then Weight(p.rest) else 0
    case _ => 0
  }

  ghost function KidsWork(a: Act, i: nat): nat
    requires i <= |a.kids|
    decreases a, 0, |a.kids| - i
  {
    if i == |a.kids| then 0 else KidWork(a.kids[i]) + KidsWork(a, i + 1)
  }

  ghost function KidWork(k: Kid): nat
    decreases k
  {
    match k.state
    case Sent => 1 + Weight(ProgOf(k.cmds))
    case Running(b) => Work(b)
    case Recorded => 0
  }

  // ---------- serving a program until it suspends ----------

  /** In packets that are large enough, each destination is owed its whole branch program. */
  lemma {:induction false} OwedAt(c: Ctx, branched: bool, i: nat)
    requires GoodCtx(c, branched) && Roomy(c)
    ensures |Owed(c, branched, i, {})| == |Dests(c)| && SizedDests(Dests(c))
    ensures forall j :: 0 <= j < |Dests(c)| ==>
      Owed(c, branched, i, {})[j] == Packet(Addr(Dests(c)[j]), Msg(BodyAt(c, j)), PktSize(Dests(c)[j]))
    decreases |Dests(c)|
  {
    GoodDests(c, branched);
    OwedStep(c, branched, i, {});
    hide Owed; hide Flat; hide GoodCtx;
    assert Branch(c) == Packet(Addr(Dests(c)[0]), Msg(BodyAt(c, 0)), PktSize(Dests(c)[0])) by {
      ClipWhole(Msg(c.body), PktSize(c.dests[0]) - MESSAGE_HEADER);
    }
    hide Branch;
    if |Dests(c)| > 1 {
      RoomyNext(c);
      OwedAt(NextCtx(c), branched, i + 1);
    }
  }

  lemma {:induction false} RoomyNext(c: Ctx)
    requires c.dests != [] && (|c.dests| > 1 || c.More?) && |Dests(c)| > 1 && Roomy(c)
    ensures var d := NextCtx(c);
      && |Dests(d)| == |Dests(c)| - 1 && Roomy(d)
      && forall j :: 0 < j < |Dests(c)| ==> BodyAt(c, j) == BodyAt(d, j - 1) && Dests(c)[j] == Dests(d)[j - 1]
  {
    hide Msg;
    var d := NextCtx(c);
    forall j | 0 <= j < |Dests(d)|
      ensures MESSAGE_HEADER + EncodedSize(Msg(BodyAt(d, j))) <= PktSize(Dests(d)[j])
    {
      assert BodyAt(c, j + 1) == BodyAt(d, j) && Dests(c)[j + 1] == Dests(d)[j];
    }
  }

  /** The state in which a forward leaves its request: every destination owed, none recorded. */
  lemma {:induction false} ForwardOpens(r: Req, p: Prog, at: seq<byte>, devs: Devices)
    requires Good(p) && Runnable(p, at, devs) && p.Forward? && r.left == -1
    ensures var c := p.ctx;
      var res := Process(r, Msg(p), devs(at));
      && res.outcome.WaitForward? && res.done == [] && res.req.cur == Msg(p)
      && res.req.mask == {} && res.req.left == |Dests(c)|
      && res.sent == Owed(c, BranchedCtx(c), 0, {})
  {
    hide SendRound; hide FlatCtx; hide Owed;
    var c, t := p.ctx, Flat(p.rest, [EomCommand]);
    FlatHead(p, [EomCommand]);
    FlatHead(p.rest, [EomCommand]);
    assert Msg(p) == FlatCtx(c, FORWARD_BEGIN, t);
    FlatCtxHead(c, FORWARD_BEGIN, t);
    var r1 := OpenContext(r.(cur := Msg(p)), Msg(p)[0]);
    GoodDests(c, BranchedCtx(c));
    RoundSends(r1, c, c, BranchedCtx(c), FORWARD_BEGIN, t, 0);
  }

  function Suspended(p: Prog, r: Req, at: seq<byte>, devs: Devices): Act {
    Resume(at, Process(r, Msg(p), devs(at)), [])
  }

  /** One turn of the loop of process_single_message on a command that does not suspend. */
  lemma {:induction false} ProcessDo(p: Prog, r: Req, at: seq<byte>, devs: Devices)
    requires Good(p) && Runnable(p, at, devs) && p.Do?
    ensures Msg(p) != [] && Msg(p)[0] == p.cmd && Msg(p)[1..] == Msg(p.rest)
    ensures Process(r, Msg(p), devs(at)) ==
        if Suspends(p.cmd) then Result(r.(cur := Msg(p.rest)), [p.cmd], [], WaitStorage)
        else Executed(p.cmd, Process(r, Msg(p.rest), devs(at)))
  {
    SkipItem(p, [EomCommand]);
  }

  lemma {:induction false} ServeInv(p: Prog, r: Req, at: seq<byte>, devs: Devices)
    requires Good(p) && Runnable(p, at, devs) && r.left == -1
    ensures Inv(Suspended(p, r, at, devs), devs)
    decreases p
  {
    hide Process; hide Flat;
    var a := Suspended(p, r, at, devs);
    match p
    case Done(reply) =>
      assert a.wait == Replied(reply) && a.kids == [] by { ProcessDone(p, r, at, devs); }
    case Do(cmd, rest) =>
      ProcessDo(p, r, at, devs);
      ServeInv(rest, r, at, devs);
    case Forward(ctx, rest) =>
      ForwardOpens(r, p, at, devs);
      ProgOfMsg(p);
      LaunchInv(a, p, devs);
  }

  lemma {:induction false} ProcessDone(p: Prog, r: Req, at: seq<byte>, devs: Devices)
    requires Good(p) && p.Done?
    ensures Process(r, Msg(p), devs(at)) == Result(r, [p.reply], [], Replied(p.reply))
  {
  }

  lemma {:induction false} LaunchInv(a: Act, p: Prog, devs: Devices)
    requires Good(p) && p.Forward? && Runnable(p, a.at, devs)
    requires a.wait.WaitForward? && a.req.cur == Msg(p) && ProgOf(Msg(p)) == p
    requires a.req.mask == {} && a.req.left == |Dests(p.ctx)|
    requires a.kids == Launch(Owed(p.ctx, BranchedCtx(p.ctx), 0, {}))
    ensures Inv(a, devs)
  {
    hide Flat; hide Owed; hide Msg;
    var c := p.ctx;
    GoodDests(c, BranchedCtx(c));
    OwedAt(c, BranchedCtx(c), 0);
    assert IsProg(a.req.cur, a.at, devs);
    forall i | 0 <= i < |a.kids| ensures KidInv(a.kids[i], c, i, devs) {
      RunnableBody(c, BranchedCtx(c), devs, i);
    }
    assert RecordedIds(a.kids) == {};
  }

  function Logged(p: Prog, r: Req, at: seq<byte>, devs: Devices): seq<Event> {
    Log(at, Process(r, Msg(p), devs(at)).done)
  }

  /** What a node logs until it suspends, followed by what remains, is a log of its program. */
  lemma {:induction false} ServeRest(p: Prog, r: Req, at: seq<byte>, devs: Devices, m: seq<Event>)
    requires Good(p) && Runnable(p, at, devs) && r.left == -1
    requires Rest(Suspended(p, r, at, devs), m)
    ensures Meaning(p, at, Logged(p, r, at, devs) + m)
    decreases p
  {
    hide Process; hide Flat; hide Interleaves;
    var a, l := Suspended(p, r, at, devs), Logged(p, r, at, devs);
    match p
    case Done(reply) =>
      ProcessDone(p, r, at, devs);
      assert l + m == [Event(at, reply)];
    case Do(cmd, rest) =>
      ProcessDo(p, r, at, devs);
      assert l != [] && l[0] == Event(at, cmd);
      assert (l + m)[1..] == l[1..] + m;
      if Suspends(cmd) {
        assert l[1..] + m == m;
        ProgOfMsg(rest);
      } else {
        assert l[1..] == Logged(rest, r, at, devs);
        ServeRest(rest, r, at, devs, m);
      }
    case Forward(ctx, rest) =>
      ForwardOpens(r, p, at, devs);
      ProgOfMsg(p);
      assert l + m == m;
      LaunchRest(a, p, devs, m);
  }

  lemma {:induction false} LaunchRest(a: Act, p: Prog, devs: Devices, m: seq<Event>)
    requires Good(p) && p.Forward? && Roomy(p.ctx)
    requires a.wait.WaitForward? && a.req.cur == Msg(p) && ProgOf(Msg(p)) == p
    requires a.kids == Launch(Owed(p.ctx, BranchedCtx(p.ctx), 0, {}))
    requires Rest(a, m)
    ensures Meaning(p, a.at, m)
  {
    hide Flat; hide Owed; hide Msg; hide Interleaves;
    var c := p.ctx;
    OwedAt(c, BranchedCtx(c), 0);
    var k: nat, parts: seq<seq<Event>> :| SplitRest(a, m, k, parts);
    forall i | 0 <= i < |parts| ensures BranchLog(c, i, parts[i]) {
      assert KidRest(a.kids[i], parts[i]);
      GoodBody(c, BranchedCtx(c), i);
      ProgOfMsg(BodyAt(c, i));
    }
  }

  /** Serving a program uses up some of its weight. */
  lemma {:induction false} ServeWork(p: Prog, r: Req, at: seq<byte>, devs: Devices)
    requires Good(p) && Runnable(p, at, devs) && r.left == -1
    ensures Work(Suspended(p, r, at, devs)) < Weight(p)
    decreases p
  {
    hide Process; hide Flat;
    var a := Suspended(p, r, at, devs);
    match p
    case Done(reply) => ProcessDone(p, r, at, devs);
    case Do(cmd, rest) =>
      ProcessDo(p, r, at, devs);
      ProgOfMsg(rest);
      ServeWork(rest, r, at, devs);
    case Forward(ctx, rest) =>
      ForwardOpens(r, p, at, devs);
      ProgOfMsg(p);
      LaunchWork(a, ctx, BranchedCtx(ctx), 0, 0);
  }

  lemma {:induction false} LaunchWork(a: Act, c: Ctx, branched: bool, i: nat, j: nat)
    requires GoodCtx(c, branched) && j <= |a.kids| && Roomy(c)
    requires a.kids[j..] == Launch(Owed(c, branched, i, {}))
    ensures KidsWork(a, j) == WeightCtx(c)
    decreases |Dests(c)|
  {
    hide Flat; hide Owed; hide WeightCtx; hide Roomy; hide Msg; hide Weight;
    OwedAt(c, branched, i);
    GoodDests(c, branched);
    var k := a.kids[j];
    assert k == a.kids[j..][0];
    assert k.state == Sent && k.cmds == Msg(c.body);
    ProgOfMsg(c.body);
    WeightNext(c, branched);
    if |Dests(c)| > 1 {
      RoomyNext(c);
      OwedAt(NextCtx(c), branched, i + 1);
      assert Owed(c, branched, i, {})[1..] == Owed(NextCtx(c), branched, i + 1, {}) by { OwedNext(c, branched, i); }
      assert a.kids[j + 1..] == Launch(Owed(NextCtx(c), branched, i + 1, {}));
      LaunchWork(a, NextCtx(c), branched, i + 1, j + 1);
    }
  }

  lemma {:induction false} WeightNext(c: Ctx, branched: bool)
    requires GoodCtx(c, branched)
    ensures WeightCtx(c) == 1 + Weight(c.body) + if |Dests(c)| > 1 then WeightCtx(NextCtx(c)) else 0
  {
    if c.More? { GoodDests(c.next, branched); }
    var w := 1 + Weight(c.body);
    assert Repeat(|c.dests|, w) == w + Repeat(|c.dests| - 1, w);
    if |c.dests| > 1 { assert |c.dests[1..]| == |c.dests| - 1; }
  }

  lemma {:induction false} OwedNext(c: Ctx, branched: bool, i: nat)
    requires GoodCtx(c, branched) && |Dests(c)| > 1
    ensures Owed(c, branched, i, {}) != [] && Owed(c, branched, i, {})[1..] == Owed(NextCtx(c), branched, i + 1, {})
  {
    OwedStep(c, branched, i, {});
  }

  /** Serving a program whose connections stay leaves the request intact. */
  lemma {:induction false} ServeIntact(p: Prog, r: Req, at: seq<byte>, devs: Devices)
    requires Good(p) && Runnable(p, at, devs) && r.left == -1 && Apart(p)
    ensures Intact(Suspended(p, r, at, devs))
    decreases p
  {
    hide Process; hide Flat; hide Runnable;
    match p
    case Done(_) => ProcessDone(p, r, at, devs);
    case Do(cmd, rest) =>
      assert Runnable(rest, at, devs) by { RunnableRest(p, at, devs); }
      ProcessDo(p, r, at, devs);
      ProgOfMsg(rest);
      ServeIntact(rest, r, at, devs);
    case Forward(ctx, rest) =>
      ForwardOpens(r, p, at, devs);
      ProgOfMsg(p);
  }

  lemma {:induction false} RunnableRest(p: Prog, at: seq<byte>, devs: Devices)
    requires Good(p) && Runnable(p, at, devs) && !p.Done?
    ensures Runnable(p.rest, at, devs)
  {
  }

  // ---------- every step: invariant, log and measure ----------

  lemma {:induction false} InterleavesMore(parts: seq<seq<Event>>, m: seq<Event>, j: nat, evs: seq<Event>)
    requires j < |parts| && Interleaves(parts, m)
    ensures Interleaves(parts[j := evs + parts[j]], evs + m)
    decreases |evs|
  {
    if evs == [] {
      assert evs + parts[j] == parts[j];
      assert parts[j := evs + parts[j]] == parts && evs + m == m;
    } else {
      var p1 := parts[j := evs + parts[j]];
      InterleavesMore(parts, m, j, evs[1..]);
      assert p1[j][1..] == evs[1..] + parts[j];
      assert p1[j := p1[j][1..]] == parts[j := evs[1..] + parts[j]];
      assert (evs + m)[1..] == evs[1..] + m;
      assert TakesFrom(p1, j, (evs + m)[0]);
    }
  }

  /** `b` is `a` but for the state of kid j and the reply bookkeeping. */
  ghost predicate OnlyKid(a: Act, b: Act, j: nat) {
    && a.wait.WaitForward? && b.wait.WaitForward? && j < |a.kids| == |b.kids|
    && a.at == b.at && a.req.cur == b.req.cur
    && forall i :: 0 <= i < |a.kids| && i != j ==> a.kids[i] == b.kids[i]
  }

  /** If kid j logs `evs` in front of what is left of it, so does the whole request. */
  lemma {:induction false} KidMoveRest(a: Act, b: Act, j: nat, evs: seq<Event>, m: seq<Event>, k: nat,
                                       parts: seq<seq<Event>>)
    requires OnlyKid(a, b, j) && SplitRest(b, m, k, parts) && KidRest(a.kids[j], evs + parts[j])
    ensures Rest(a, evs + m)
  {
    hide Interleaves; hide Meaning;
    var parts1, k1 := parts[j := evs + parts[j]], k + |evs|;
    InterleavesMore(parts, m[..k], j, evs);
    assert (evs + m)[..k1] == evs + m[..k];
    assert (evs + m)[k1..] == m[k..];
    forall i | 0 <= i < |parts1| ensures KidRest(a.kids[i], parts1[i]) {
      assert KidRest(b.kids[i], parts[i]);
    }
    assert SplitRest(a, evs + m, k1, parts1);
  }

  lemma {:induction false} KidsWorkLocal(a: Act, b: Act, i: nat, j: nat)
    requires |a.kids| == |b.kids| && i <= |a.kids| && j < |a.kids|
    requires forall l :: 0 <= l < |a.kids| && l != j ==> a.kids[l] == b.kids[l]
    ensures i <= j ==> KidsWork(a, i) - KidWork(a.kids[j]) == KidsWork(b, i) - KidWork(b.kids[j])
    ensures i > j ==> KidsWork(a, i) == KidsWork(b, i)
    decreases |a.kids| - i
  {
    if i < |a.kids| { KidsWorkLocal(a, b, i + 1, j); }
  }

  /** What a step of an intact request from `a` to `b`, logging `evs`, keeps. */
  ghost predicate Sound(a: Act, b: Act, evs: seq<Event>) {
    Intact(b) && Work(b) < Work(a) && forall m :: Rest(b, m) ==> Rest(a, evs + m)
  }

  lemma {:induction false} Witness(s: seq<Command>, at: seq<byte>, devs: Devices)
    requires IsProg(s, at, devs)
    ensures Good(ProgOf(s)) && Runnable(ProgOf(s), at, devs) && s == Msg(ProgOf(s))
  {
    var p :| Good(p) && Runnable(p, at, devs) && s == Msg(p);
    ProgOfMsg(p);
  }

  lemma {:induction false} AckServes(a: Act, b: Act, evs: seq<Event>, devs: Devices) returns (p: Prog)
    requires Inv(a, devs) && StorageAck(a, b, evs, devs)
    ensures p == ProgOf(a.req.cur) && Good(p) && Runnable(p, a.at, devs) && a.req.left == -1
    ensures b == Suspended(p, a.req, a.at, devs) && evs == Logged(p, a.req, a.at, devs)
  {
    hide Process; hide Flat;
    p := ProgOf(a.req.cur);
    Witness(a.req.cur, a.at, devs);
  }

  lemma {:induction false} AckSound(a: Act, b: Act, evs: seq<Event>, devs: Devices)
    requires Inv(a, devs) && Intact(a) && StorageAck(a, b, evs, devs)
    ensures Sound(a, b, evs)
  {
    hide Process; hide Flat; hide Meaning; hide Inv; hide Runnable;
    var p := AckServes(a, b, evs, devs);
    ServeIntact(p, a.req, a.at, devs);
    ServeWork(p, a.req, a.at, devs);
    forall m | Rest(b, m) ensures Rest(a, evs + m) {
      ServeRest(p, a.req, a.at, devs, m);
    }
  }

  lemma {:induction false} RestSplit(a: Act, m: seq<Event>) returns (k: nat, parts: seq<seq<Event>>)
    requires a.wait.WaitForward? && Rest(a, m)
    ensures SplitRest(a, m, k, parts)
  {
    k, parts :| SplitRest(a, m, k, parts);
  }

  /** The invariant is kept when kid j changes state and the bookkeeping agrees. */
  lemma {:induction false} KidKeepsInv(a: Act, b: Act, devs: Devices, j: nat)
    requires Inv(a, devs) && OnlyKid(a, b, j)
    requires ProgOf(a.req.cur).Forward? && DistinctCtx(ProgOf(a.req.cur).ctx)
    requires |a.kids| == |Dests(ProgOf(a.req.cur).ctx)|
    requires KidInv(b.kids[j], ProgOf(a.req.cur).ctx, j, devs)
    requires b.req.mask == RecordedIds(b.kids) && b.req.left == |b.kids| - |b.req.mask| >= 1
    ensures Inv(b, devs)
  {
    var c := ProgOf(a.req.cur).ctx;
    forall i | 0 <= i < |b.kids| ensures KidInv(b.kids[i], c, i, devs) {
      assert KidInv(a.kids[i], c, i, devs);
    }
  }

  /** A move inside kid j that keeps the kid's own state sound keeps the whole request sound. */
  lemma {:induction false} KidSound(a: Act, b: Act, evs: seq<Event>, j: nat)
    requires Intact(a) && OnlyKid(a, b, j) && b.req == a.req && Joined(b.kids[j])
    requires KidWork(b.kids[j]) < KidWork(a.kids[j])
    requires forall m :: KidRest(b.kids[j], m) ==> KidRest(a.kids[j], evs + m)
    ensures Sound(a, b, evs)
  {
    hide Meaning; hide Interleaves; hide Joined; hide KidRest; hide KidWork;
    KidsWorkLocal(a, b, 0, j);
    forall i | 0 <= i < |b.kids| ensures Joined(b.kids[i]) {
      if i != j { assert Joined(a.kids[i]); }
    }
    forall m | Rest(b, m) ensures Rest(a, evs + m) {
      var k, parts := RestSplit(b, m);
      assert KidRest(b.kids[j], parts[j]);
      KidMoveRest(a, b, j, evs, m, k, parts);
    }
  }

  /** What kid j was sent is served when it arrives. */
  lemma {:induction false} DeliveryServes(a: Act, b: Act, evs: seq<Event>, devs: Devices, j: nat)
    returns (p: Prog, r: Req)
    requires Delivery(a, b, evs, devs, j) && Served(a.kids[j], devs)
    ensures p == ProgOf(a.kids[j].cmds) && Good(p) && Runnable(p, a.kids[j].to, devs) && r.left == -1
    ensures b == WithKid(a, j, Running(Suspended(p, r, a.kids[j].to, devs)))
    ensures evs == Logged(p, r, a.kids[j].to, devs)
  {
    hide Process; hide Flat; hide Inv;
    var k := a.kids[j];
    p := ProgOf(k.cmds);
    Witness(k.cmds, k.to, devs);
    var slot, status :| DeliveryTo(a, b, evs, devs, j, slot, status);
    r := NewReq(slot, status, k.cmds);
  }

  lemma {:induction false} DeliverySound(a: Act, b: Act, evs: seq<Event>, devs: Devices, j: nat)
    requires Inv(a, devs) && Intact(a) && Delivery(a, b, evs, devs, j)
    ensures Sound(a, b, evs)
  {
    hide Process; hide Flat; hide Meaning; hide Rest; hide Runnable; hide Delivery;
    InRange(a, b, evs, devs, j);
    var k, c := a.kids[j], ProgOf(a.req.cur).ctx;
    assert KidInv(k, c, j, devs) && Joined(k);
    var p, r := DeliveryServes(a, b, evs, devs, j);
    assert Apart(p) by {
      ApartBody(c, j);
      GoodBody(c, BranchedCtx(c), j) by { Witness(a.req.cur, a.at, devs); }
      ProgOfMsg(BodyAt(c, j));
    }
    ServeIntact(p, r, k.to, devs);
    ServeWork(p, r, k.to, devs);
    forall m | KidRest(b.kids[j], m) ensures KidRest(k, evs + m) {
      ServeRest(p, r, k.to, devs, m);
    }
    KidSound(a, b, evs, j);
  }

  lemma {:induction false} InRange(a: Act, b: Act, evs: seq<Event>, devs: Devices, j: nat)
    requires Delivery(a, b, evs, devs, j)
    ensures j < |a.kids| && a.kids[j].state.Sent?
  {
  }

  /** When all ids but j are that many, every other id is among them. */
  lemma {:induction false} AllButOne(mask: set<nat>, n: nat, j: nat)
    requires (forall i :: i in mask ==> i < n) && j < n && j !in mask && |mask| == n - 1
    ensures mask == Below(n) - {j}
  {
    var others := Below(n) - {j};
    assert |others - mask| == |others| - |mask| by { assert mask <= others; }
    assert others == mask + (others - mask);
  }

  lemma {:induction false} NoneUnfinished(ks: seq<Kid>)
    requires forall i :: 0 <= i < |ks| ==> ks[i].state.Recorded?
    ensures Unfinished(ks) == []
  {
    if ks != [] { NoneUnfinished(ks[1..]); }
  }

  /** The reply of kid j is found under id j, and the cursor behind the context is the rest of the program. */
  lemma {:induction false} ReplyId(a: Act, devs: Devices, j: nat)
    requires Inv(a, devs) && a.wait.WaitForward? && j < |a.kids|
    ensures var p := ProgOf(a.req.cur);
      && AtForward(a.req.cur) && FindReplyId(a.req.cur, a.kids[j].to) == j
      && p.Forward? && Good(p) && Runnable(p.rest, a.at, devs) && Skip(a.req.cur, 1) == Msg(p.rest)
  {
    hide FindReplyId; hide FlatCtx;
    var p := ProgOf(a.req.cur);
    Witness(a.req.cur, a.at, devs);
    var t := Flat(p.rest, [EomCommand]);
    FlatHead(p.rest, [EomCommand]);
    assert KidInv(a.kids[j], p.ctx, j, devs);
    assert a.req.cur == FlatCtx(p.ctx, FORWARD_BEGIN, t);
    FindIsIndex(p.ctx, FORWARD_BEGIN, BranchedCtx(p.ctx), t, a.kids[j].to);
    SkipSiblings(p, [EomCommand], 1);
    assert DropItems(p, 1) == p.rest;
  }

  lemma {:induction false} RestOfReplied(a: Act)
    requires a.wait.Replied?
    ensures Rest(a, [])
  {
  }

  lemma {:induction false} RecordKeepsInv(a: Act, b: Act, evs: seq<Event>, cut: Cut, devs: Devices, j: nat)
    requires Inv(a, devs) && ReplyArrival(a, b, evs, cut, devs, j) && !Completes(a.req, a.kids[j].to)
    ensures b.kids == WithKid(a, j, Recorded).kids && evs == [] && cut == NoCut
    ensures OnlyKid(a, b, j) && Inv(b, devs) && a.at == b.at
  {
    hide Process; hide Flat; hide FindReplyId; hide HandleReply; hide ReplyReturn; hide Served; hide IsProg; hide Msg;
    ReplyId(a, devs, j);
    var k := a.kids[j];
    assert KidInv(k, ProgOf(a.req.cur).ctx, j, devs);
    Records(a.req, k.to, j, k.state.act.req.status, devs(a.at));
    assert RecordedIds(b.kids) == a.req.mask + {j};
    assert Served(b.kids[j], devs) by { StillServed(k, devs); }
    KidKeepsInv(a, b, devs, j);
  }

  lemma {:induction false} StillServed(k: Kid, devs: Devices)
    requires Served(k, devs)
    ensures Served(k.(state := Recorded), devs)
  {
  }

  /** A reply that is not the last is recorded under its id. */
  lemma {:induction false} Records(r: Req, addr: seq<byte>, j: nat, status: nat, devs: nat)
    requires AtForward(r.cur) && FindReplyId(r.cur, addr) == j && j !in r.mask && !Completes(r, addr)
    ensures HandleReply(r, addr, status, devs)
         == Result(r.(mask := r.mask + {j}, left := r.left - 1), [], [], WaitForward)
    ensures ReplyReturn(r, addr, status, devs) == -1
  {
  }

  /** A reply that does not complete the context only records its destination. */
  lemma {:induction false} RecordSound(a: Act, b: Act, evs: seq<Event>, cut: Cut, devs: Devices, j: nat)
    requires Inv(a, devs) && Intact(a)
    requires ReplyArrival(a, b, evs, cut, devs, j) && !Completes(a.req, a.kids[j].to)
    ensures Sound(a, b, evs)
  {
    hide Process; hide Flat; hide Meaning; hide FindReplyId; hide Interleaves; hide Rest; hide Inv;
    RecordKeepsInv(a, b, evs, cut, devs, j);
    var k := a.kids[j];
    KidsWorkLocal(a, b, 0, j);
    forall i | 0 <= i < |b.kids| ensures Joined(b.kids[i]) {
      assert Joined(a.kids[i]);
    }
    forall m | Rest(b, m) ensures Rest(a, evs + m) {
      var x, parts := RestSplit(b, m);
      assert KidRest(b.kids[j], parts[j]);
      assert evs + parts[j] == [];
      RestOfReplied(k.state.act);
      KidMoveRest(a, b, j, evs, m, x, parts);
    }
  }

  lemma {:induction false} InterleavesNothing(parts: seq<seq<Event>>)
    requires forall i :: 0 <= i < |parts| ==> parts[i] == []
    ensures Interleaves(parts, [])
  {
  }

  lemma {:induction false} OthersRecorded(a: Act, devs: Devices, j: nat)
    requires Inv(a, devs) && a.wait.WaitForward? && j < |a.kids| && !a.kids[j].state.Recorded? && a.req.left <= 1
    ensures forall i :: 0 <= i < |a.kids| && i != j ==> a.kids[i].state.Recorded?
  {
    AllButOne(a.req.mask, |a.kids|, j);
    forall i | 0 <= i < |a.kids| && i != j ensures a.kids[i].state.Recorded? {
      assert i in Below(|a.kids|) - {j};
    }
  }

  /** The last reply moves the request past the context, where it serves the rest of its program. */
  lemma {:induction false} CompleteServes(a: Act, b: Act, evs: seq<Event>, cut: Cut, devs: Devices, j: nat)
    returns (rest: Prog, r: Req)
    requires Inv(a, devs) && ReplyArrival(a, b, evs, cut, devs, j) && Completes(a.req, a.kids[j].to)
    ensures ProgOf(a.req.cur).Forward? && rest == ProgOf(a.req.cur).rest && Good(ProgOf(a.req.cur))
    ensures r.left == -1 && Runnable(rest, a.at, devs)
    ensures b == Suspended(rest, r, a.at, devs) && evs == Logged(rest, r, a.at, devs)
    ensures cut == if ReturnCode(b.wait) == 0 then Cut(a.at, a.kids[j].to) else NoCut
    ensures forall i :: 0 <= i < |a.kids| && i != j ==> a.kids[i].state.Recorded?
  {
    hide Process; hide Flat; hide FindReplyId;
    ReplyId(a, devs, j);
    OthersRecorded(a, devs, j);
    var k := a.kids[j];
    rest := ProgOf(a.req.cur).rest;
    NoneUnfinished(WithKid(a, j, Recorded).kids);
    r := a.req.(cur := Msg(rest), mask := {}, left := -1, timeout := 0, retries := 0, status := k.state.act.req.status);
  }

  lemma {:induction false} CompleteSound(a: Act, b: Act, evs: seq<Event>, cut: Cut, devs: Devices, j: nat)
    requires Inv(a, devs) && Intact(a) && ReplyArrival(a, b, evs, cut, devs, j) && Completes(a.req, a.kids[j].to)
    ensures Sound(a, b, evs)
  {
    hide Process; hide Flat; hide Meaning; hide FindReplyId; hide Rest; hide Inv; hide Runnable;
    var rest, r := CompleteServes(a, b, evs, cut, devs, j);
    ServeIntact(rest, r, a.at, devs);
    ServeWork(rest, r, a.at, devs);
    forall m | Rest(b, m) ensures Rest(a, evs + m) {
      ServeRest(rest, r, a.at, devs, m);
      AllAnsweredRest(a, j, evs + m);
    }
  }

  /** When every kid has been recorded or has replied, what remains is what follows the context. */
  lemma {:induction false} AllAnsweredRest(a: Act, j: nat, m: seq<Event>)
    requires a.wait.WaitForward? && ProgOf(a.req.cur).Forward? && Good(ProgOf(a.req.cur)) && j < |a.kids|
    requires forall i :: 0 <= i < |a.kids| && i != j ==> a.kids[i].state.Recorded?
    requires a.kids[j].state.Running? && a.kids[j].state.act.wait.Replied?
    requires Meaning(ProgOf(a.req.cur).rest, a.at, m)
    ensures Rest(a, m)
  {
    hide Meaning; hide Interleaves;
    var parts: seq<seq<Event>> := seq(|a.kids|, _ => []);
    InterleavesNothing(parts);
    assert m[..0] == [] && m[0..] == m;
    RestOfReplied(a.kids[j].state.act);
    forall i | 0 <= i < |parts| ensures KidRest(a.kids[i], parts[i]) {
    }
    assert SplitRest(a, m, 0, parts);
  }

  lemma {:induction false} ReplySound(a: Act, b: Act, evs: seq<Event>, cut: Cut, devs: Devices, j: nat)
    requires Inv(a, devs) && Intact(a) && ReplyArrival(a, b, evs, cut, devs, j)
    ensures Sound(a, b, evs)
  {
    hide Process; hide FindReplyId; hide Inv; hide Intact; hide Sound;
    if Completes(a.req, a.kids[j].to) { CompleteSound(a, b, evs, cut, devs, j); }
    else { RecordSound(a, b, evs, cut, devs, j); }
  }

  /** A step inside the request that kid j is serving. */
  lemma {:induction false} InsideKid(a: Act, b: Act, evs: seq<Event>, cut: Cut, devs: Devices, j: nat) returns (y: Act)
    requires j < |a.kids| && KidStep(a, b, evs, cut, devs, j)
    ensures a.kids[j].state.Running? && Step(a.kids[j].state.act, y, evs, cut, devs) && b == WithKid(a, j, Running(y))
  {
    y :| Step(a.kids[j].state.act, y, evs, cut, devs) && b == WithKid(a, j, Running(y));
  }

  /** The kids of a request that has one are served, whatever it waits for. */
  lemma {:induction false} KidServed(a: Act, devs: Devices, j: nat)
    requires Inv(a, devs) && j < |a.kids|
    ensures Served(a.kids[j], devs) && (a.wait.Replied? || a.wait.WaitForward?)
  {
    if a.wait.WaitForward? { assert KidInv(a.kids[j], ProgOf(a.req.cur).ctx, j, devs); }
  }

  /** Kid j may change as long as it is still served. */
  lemma {:induction false} KidChanges(a: Act, devs: Devices, j: nat, y: Act)
    requires Inv(a, devs) && j < |a.kids| && !a.kids[j].state.Recorded? && y.at == a.kids[j].to && Inv(y, devs)
    ensures Inv(WithKid(a, j, Running(y)), devs)
  {
    var b := WithKid(a, j, Running(y));
    KidServed(a, devs, j);
    if a.wait.WaitForward? {
      assert KidInv(a.kids[j], ProgOf(a.req.cur).ctx, j, devs);
      assert RecordedIds(b.kids) == RecordedIds(a.kids);
      KidKeepsInv(a, b, devs, j);
    }
  }

  /** Every step keeps the invariant, whatever connections were closed before. */
  lemma {:induction false} StepInv(a: Act, b: Act, evs: seq<Event>, cut: Cut, devs: Devices)
    requires Inv(a, devs) && Step(a, b, evs, cut, devs)
    ensures Inv(b, devs) && b.at == a.at
    decreases a
  {
    hide Process; hide Flat; hide FindReplyId; hide StorageAck; hide Inv; hide Runnable; hide Served;
    if StorageAck(a, b, evs, devs) {
      var p := AckServes(a, b, evs, devs);
      ServeInv(p, a.req, a.at, devs);
    } else {
      var j: nat :|
        && j < |a.kids|
        && (|| (Delivery(a, b, evs, devs, j) && cut == NoCut)
            || ReplyArrival(a, b, evs, cut, devs, j) || KidStep(a, b, evs, cut, devs, j));
      KidServed(a, devs, j);
      if Delivery(a, b, evs, devs, j) {
        var p, r := DeliveryServes(a, b, evs, devs, j);
        ServeInv(p, r, a.kids[j].to, devs);
        InRange(a, b, evs, devs, j);
        KidChanges(a, devs, j, Suspended(p, r, a.kids[j].to, devs));
      } else if ReplyArrival(a, b, evs, cut, devs, j) {
        if Completes(a.req, a.kids[j].to) {
          var rest, r := CompleteServes(a, b, evs, cut, devs, j);
          ServeInv(rest, r, a.at, devs);
        } else {
          RecordKeepsInv(a, b, evs, cut, devs, j);
        }
      } else {
        var y := InsideKid(a, b, evs, cut, devs, j);
        RunningInv(a.kids[j], devs);
        StepInv(a.kids[j].state.act, y, evs, cut, devs);
        KidChanges(a, devs, j, y);
      }
    }
  }

  lemma {:induction false} KidMoves(a: Act, b: Act, evs: seq<Event>, j: nat, y: Act)
    requires Intact(a) && a.wait.WaitForward? && j < |a.kids| && a.kids[j].state.Running?
    requires b == WithKid(a, j, Running(y)) && Sound(a.kids[j].state.act, y, evs)
    ensures Sound(a, b, evs)
  {
    hide Rest; hide Work; hide Meaning; hide Interleaves;
    assert Joined(a.kids[j]);
    KidSound(a, b, evs, j);
  }

  lemma {:induction false} RunningInv(k: Kid, devs: Devices)
    requires Served(k, devs) && k.state.Running?
    ensures k.state.act.at == k.to && Inv(k.state.act, devs)
  {
  }

  /** Every step of an intact request uses up work and logs a part of what was left to log. */
  lemma {:induction false} StepSound(a: Act, b: Act, evs: seq<Event>, cut: Cut, devs: Devices)
    requires Inv(a, devs) && Intact(a) && Step(a, b, evs, cut, devs)
    ensures Sound(a, b, evs)
    decreases a
  {
    hide Process; hide Flat; hide Meaning; hide FindReplyId; hide Interleaves; hide StorageAck; hide Rest; hide Inv;
    hide Delivery; hide ReplyArrival; hide Intact; hide Sound; hide KidStep;
    if StorageAck(a, b, evs, devs) {
      AckSound(a, b, evs, devs);
    } else {
      var j: nat :|
        && j < |a.kids|
        && (|| (Delivery(a, b, evs, devs, j) && cut == NoCut)
            || ReplyArrival(a, b, evs, cut, devs, j) || KidStep(a, b, evs, cut, devs, j));
      if Delivery(a, b, evs, devs, j) {
        DeliverySound(a, b, evs, devs, j);
      } else if ReplyArrival(a, b, evs, cut, devs, j) {
        ReplySound(a, b, evs, cut, devs, j);
      } else {
        var y := InsideKid(a, b, evs, cut, devs, j);
        KidServed(a, devs, j);
        RunningInv(a.kids[j], devs);
        KidIntact(a, j);
        NotReplied(a, j);
        StepSound(a.kids[j].state.act, y, evs, cut, devs);
        KidMoves(a, b, evs, j, y);
      }
    }
  }

  // ---------- the steps that can be taken ----------

  lemma {:induction false} AckStep(a: Act, devs: Devices) returns (b: Act, evs: seq<Event>)
    requires a.wait.WaitStorage?
    ensures StorageAck(a, b, evs, devs) && Step(a, b, evs, NoCut, devs)
  {
    hide Process;
    var r := Process(a.req, a.req.cur, devs(a.at));
    b, evs := Resume(a.at, r, a.kids), Log(a.at, r.done);
  }

  lemma {:induction false} DeliverStep(a: Act, j: nat, devs: Devices) returns (b: Act, evs: seq<Event>)
    requires j < |a.kids| && a.kids[j].state.Sent?
    ensures Delivery(a, b, evs, devs, j) && Step(a, b, evs, NoCut, devs)
  {
    hide Process;
    var k := a.kids[j];
    var r := Received(k.to, a.req, 0, k.cmds, devs);
    b, evs := WithKid(a, j, Running(Resume(k.to, r, []))), Log(k.to, r.done);
    assert DeliveryTo(a, b, evs, devs, j, a.req, 0);
  }

  /** Kid j has answered and its reply can arrive. */
  predicate Answered(k: Kid) {
    k.open && k.state.Running? && k.state.act.wait.Replied? && RespSize(k.state.act.wait.reply) >= MIN_REPLY
  }

  lemma {:induction false} ReplyStep(a: Act, j: nat, devs: Devices) returns (b: Act, evs: seq<Event>, cut: Cut)
    requires j < |a.kids| && Answered(a.kids[j]) && a.wait.WaitForward? && AtForward(a.req.cur)
    ensures ReplyArrival(a, b, evs, cut, devs, j) && Step(a, b, evs, cut, devs)
  {
    hide Process;
    var k := a.kids[j];
    var status := k.state.act.req.status;
    var r := HandleReply(a.req, k.to, status, devs(a.at));
    var kids := WithKid(a, j, Recorded).kids;
    b := Resume(a.at, r, if Completes(a.req, k.to) then Unfinished(kids) else kids);
    evs := Log(a.at, r.done);
    cut := if ReplyReturn(a.req, k.to, status, devs(a.at)) == 0 then Cut(a.at, k.to) else NoCut;
  }

  lemma {:induction false} InsideStep(a: Act, j: nat, y: Act, evs: seq<Event>, cut: Cut, devs: Devices)
    requires j < |a.kids| && a.kids[j].state.Running? && Step(a.kids[j].state.act, y, evs, cut, devs)
    ensures Step(a, WithKid(a, j, Running(y)), evs, cut, devs)
  {
    assert KidStep(a, WithKid(a, j, Running(y)), evs, cut, devs, j);
  }

  /** From every intact state in which the request is not answered, some step can be taken. */
  lemma {:induction false} Progress(a: Act, devs: Devices)
    requires Inv(a, devs) && Intact(a) && !a.wait.Replied?
    ensures exists b, evs, cut :: Step(a, b, evs, cut, devs)
    decreases a
  {
    hide Process; hide Flat; hide FindReplyId; hide Step;
    if a.wait.WaitStorage? {
      var b, evs := AckStep(a, devs);
    } else {
      var j := SomeUnrecorded(a, devs);
      var k := a.kids[j];
      ReplyId(a, devs, j);
      KidServed(a, devs, j);
      assert Joined(k);
      if k.state.Sent? {
        var b, evs := DeliverStep(a, j, devs);
      } else if k.state.act.wait.Replied? {
        var b, evs, cut := ReplyStep(a, j, devs);
      } else {
        Progress(k.state.act, devs);
        var y, evs, cut :| Step(k.state.act, y, evs, cut, devs);
        InsideStep(a, j, y, evs, cut, devs);
      }
    }
  }

  lemma {:induction false} SomeUnrecorded(a: Act, devs: Devices) returns (j: nat)
    requires Inv(a, devs) && a.wait.WaitForward?
    ensures j < |a.kids| && !a.kids[j].state.Recorded?
  {
    var open := Below(|a.kids|) - a.req.mask;
    assert |open| == |a.kids| - |a.req.mask| by { assert a.req.mask <= Below(|a.kids|); }
    j :| j in open;
  }

  // ---------- which node serves what ----------

  /** The nodes that may serve the request forwarded to `k` and what it forwards in turn. */
  ghost function KidZone(k: Kid): set<seq<byte>> {
    {k.to} + NodesOf(ProgOf(k.cmds))
  }

  /** The request uses nodes of `z` only. */
  ghost predicate Roams(a: Act, z: set<seq<byte>>) {
    && a.at in z && (Live(a) ==> NodesOf(ProgOf(a.req.cur)) <= z)
    && forall i :: 0 <= i < |a.kids| ==> KidZone(a.kids[i]) <= z
  }

  /** No node serves two requests of the tree. */
  ghost predicate Placed(a: Act)
    decreases a
  {
    && (forall i :: 0 <= i < |a.kids| ==> a.at !in KidZone(a.kids[i]))
    && (forall i, j :: 0 <= i < j < |a.kids| ==> KidZone(a.kids[i]) !! KidZone(a.kids[j]))
    && forall i :: 0 <= i < |a.kids| ==> KidPlaced(a.kids[i])
  }

  ghost predicate KidPlaced(k: Kid)
    decreases k
  {
    k.state.Running? ==> Placed(k.state.act) && Roams(k.state.act, KidZone(k))
  }

  lemma {:induction false} ServePlaced(p: Prog, r: Req, at: seq<byte>, devs: Devices, z: set<seq<byte>>)
    requires Good(p) && Runnable(p, at, devs) && r.left == -1 && at in z && NodesOf(p) <= z
    ensures var a := Suspended(p, r, at, devs); Placed(a) && Roams(a, z)
    decreases p
  {
    hide Process; hide Flat; hide Runnable;
    match p
    case Done(_) => ProcessDone(p, r, at, devs);
    case Do(cmd, rest) =>
      RunnableRest(p, at, devs);
      ProcessDo(p, r, at, devs);
      ProgOfMsg(rest);
      ServePlaced(rest, r, at, devs, z);
    case Forward(ctx, rest) =>
      ForwardOpens(r, p, at, devs);
      ProgOfMsg(p);
      LaunchPlaced(Suspended(p, r, at, devs), p, devs, z);
  }

  lemma {:induction false} LaunchPlaced(a: Act, p: Prog, devs: Devices, z: set<seq<byte>>)
    requires Good(p) && p.Forward? && Runnable(p, a.at, devs) && a.at in z && NodesOf(p) <= z
    requires a.wait.WaitForward? && a.req.cur == Msg(p) && ProgOf(Msg(p)) == p
    requires a.kids == Launch(Owed(p.ctx, BranchedCtx(p.ctx), 0, {}))
    ensures Placed(a) && Roams(a, z)
  {
    hide Flat; hide Owed; hide Msg; hide Zone; hide ProgOf;
    var c := p.ctx;
    assert Separate(c, a.at) && Roomy(c) && NodesCtx(c) <= z;
    hide Runnable; hide Roomy;
    OwedAt(c, BranchedCtx(c), 0);
    forall i | 0 <= i < |a.kids| ensures KidZone(a.kids[i]) == Zone(c, i) && Zone(c, i) <= z {
      LaunchZone(a.kids[i], c, i);
      ZoneInside(c, i);
    }
    hide KidZone;
  }

  lemma {:induction false} LaunchZone(k: Kid, c: Ctx, i: nat)
    requires GoodCtx(c, BranchedCtx(c)) && i < |Dests(c)| && SizedDests(Dests(c))
    requires k.to == Addr(Dests(c)[i]) && k.cmds == Msg(BodyAt(c, i))
    ensures KidZone(k) == Zone(c, i)
  {
    hide Flat;
    GoodBody(c, BranchedCtx(c), i);
    ProgOfMsg(BodyAt(c, i));
  }

  /** Kid j changes but stays in its zone. */
  lemma {:induction false} KidStays(a: Act, j: nat, s: KidState, z: set<seq<byte>>)
    requires Placed(a) && Roams(a, z) && j < |a.kids| && KidPlaced(a.kids[j].(state := s))
    ensures Placed(WithKid(a, j, s)) && Roams(WithKid(a, j, s), z)
  {
    hide KidPlaced; hide Placed;
    KidStaysPlaced(a, j, s);
  }

  lemma {:induction false} KidStaysPlaced(a: Act, j: nat, s: KidState)
    requires Placed(a) && j < |a.kids| && KidPlaced(a.kids[j].(state := s))
    ensures Placed(WithKid(a, j, s))
  {
    hide KidPlaced;
    var b := WithKid(a, j, s);
    assert forall i :: 0 <= i < |a.kids| ==> KidZone(b.kids[i]) == KidZone(a.kids[i]);
    forall i | 0 <= i < |b.kids| ensures KidPlaced(b.kids[i]) {
      if i != j { assert KidPlaced(a.kids[i]); }
    }
  }

  /** A step leaves every request on its own nodes, and what it closes is a connection of one of them. */
  lemma {:induction false} StepPlaced(a: Act, b: Act, evs: seq<Event>, cut: Cut, devs: Devices, z: set<seq<byte>>)
    requires Inv(a, devs) && Placed(a) && Roams(a, z) && Step(a, b, evs, cut, devs)
    ensures Placed(b) && Roams(b, z) && (cut.Cut? ==> cut.at in z)
    decreases a
  {
    hide Process; hide Flat; hide FindReplyId; hide StorageAck; hide Inv; hide Runnable; hide Served; hide Placed;
    if StorageAck(a, b, evs, devs) && cut == NoCut {
      var p := AckServes(a, b, evs, devs);
      ServePlaced(p, a.req, a.at, devs, z) by { StorageLive(a, b, evs, devs); }
    } else {
      var j: nat :|
        && j < |a.kids|
        && (|| (Delivery(a, b, evs, devs, j) && cut == NoCut)
            || ReplyArrival(a, b, evs, cut, devs, j) || KidStep(a, b, evs, cut, devs, j));
      KidServed(a, devs, j);
      var k := a.kids[j];
      if Delivery(a, b, evs, devs, j) {
        var p, r := DeliveryServes(a, b, evs, devs, j);
        ServePlaced(p, r, k.to, devs, KidZone(k));
        KidStays(a, j, Running(Suspended(p, r, k.to, devs)), z);
      } else if ReplyArrival(a, b, evs, cut, devs, j) {
        if Completes(a.req, k.to) {
          var rest, r := CompleteServes(a, b, evs, cut, devs, j);
          ServePlaced(rest, r, a.at, devs, z);
        } else {
          RecordKeepsInv(a, b, evs, cut, devs, j);
          KidStays(a, j, Recorded, z);
          SamePlaces(WithKid(a, j, Recorded), b, z);
        }
      } else {
        var y := InsideKid(a, b, evs, cut, devs, j);
        RunningInv(k, devs);
        KidIsPlaced(a, j);
        StepPlaced(k.state.act, y, evs, cut, devs, KidZone(k));
        KidStays(a, j, Running(y), z);
      }
    }
  }

  lemma {:induction false} StorageLive(a: Act, b: Act, evs: seq<Event>, devs: Devices)
    requires StorageAck(a, b, evs, devs)
    ensures Live(a)
  {
  }

  lemma {:induction false} KidIsPlaced(a: Act, j: nat)
    requires Placed(a) && j < |a.kids| && a.kids[j].state.Running?
    ensures Placed(a.kids[j].state.act) && Roams(a.kids[j].state.act, KidZone(a.kids[j])) && a.at !in KidZone(a.kids[j])
    ensures forall i :: 0 <= i < |a.kids| && i != j ==> KidZone(a.kids[i]) !! KidZone(a.kids[j])
  {
    assert KidPlaced(a.kids[j]);
  }

  lemma {:induction false} SamePlaces(a: Act, b: Act, z: set<seq<byte>>)
    requires Placed(a) && Roams(a, z) && b.at == a.at && b.kids == a.kids
    requires Live(b) ==> Live(a) && b.req.cur == a.req.cur
    ensures Placed(b) && Roams(b, z)
  {
  }

  /** Closing a connection of a node that serves nothing of this request changes nothing. */
  lemma {:induction false} HangElsewhere(a: Act, n: seq<byte>, x: seq<byte>, devs: Devices, z: set<seq<byte>>)
    requires Placed(a) && Roams(a, z) && n !in z
    ensures Hang(a, n, x, devs) == a && HangLog(a, n, x, devs) == []
    decreases a
  {
    forall i | 0 <= i < |a.kids| ensures HangKid(a.kids[i], false, n, x, devs) == a.kids[i] {
      KidElsewhere(a, i, n, x, devs);
    }
    assert HangKids(a, 0, n, x, devs) == a.kids;
    NoKidsLog(a, 0, n, x, devs);
  }

  lemma {:induction false} KidElsewhere(a: Act, i: nat, n: seq<byte>, x: seq<byte>, devs: Devices)
    requires Placed(a) && i < |a.kids| && n !in KidZone(a.kids[i])
    ensures HangKid(a.kids[i], false, n, x, devs) == a.kids[i]
    ensures a.kids[i].state.Running? ==> HangLog(a.kids[i].state.act, n, x, devs) == []
    decreases a, 0
  {
    if a.kids[i].state.Running? {
      KidIsPlaced(a, i);
      HangElsewhere(a.kids[i].state.act, n, x, devs, KidZone(a.kids[i]));
    }
  }

  lemma {:induction false} NoKidsLog(a: Act, i: nat, n: seq<byte>, x: seq<byte>, devs: Devices)
    requires Placed(a) && i <= |a.kids| && forall j :: i <= j < |a.kids| ==> n !in KidZone(a.kids[j])
    ensures HangKidsLog(a, i, n, x, devs) == []
    decreases a, 1, |a.kids| - i
  {
    if i < |a.kids| {
      KidElsewhere(a, i, n, x, devs);
      NoKidsLog(a, i + 1, n, x, devs);
    }
  }

  /** Closing a connection of a node inside kid j changes only that kid. */
  lemma {:induction false} HangInside(a: Act, j: nat, n: seq<byte>, x: seq<byte>, devs: Devices)
    requires Placed(a) && j < |a.kids| && a.kids[j].state.Running? && n in KidZone(a.kids[j])
    ensures Hang(a, n, x, devs) == WithKid(a, j, Running(Hang(a.kids[j].state.act, n, x, devs)))
    ensures HangLog(a, n, x, devs) == HangLog(a.kids[j].state.act, n, x, devs)
  {
    hide Placed; hide HangLog; hide HangKidsLog; hide HangKids;
    KidIsPlaced(a, j);
    var b := WithKid(a, j, Running(Hang(a.kids[j].state.act, n, x, devs)));
    forall i | 0 <= i < |a.kids| ensures HangKid(a.kids[i], false, n, x, devs) == b.kids[i] {
      if i != j { KidElsewhere(a, i, n, x, devs); }
    }
    assert HangKids(a, 0, n, x, devs) == b.kids;
    assert HangLog(a, n, x, devs) == [] + HangKidsLog(a, 0, n, x, devs) by { UnhitLog(a, n, x, devs); }
    LogOfKid(a, 0, j, n, x, devs);
  }

  lemma {:induction false} UnhitLog(a: Act, n: seq<byte>, x: seq<byte>, devs: Devices)
    requires !Hit(a, n, x)
    ensures HangLog(a, n, x, devs) == HangKidsLog(a, 0, n, x, devs) == [] + HangKidsLog(a, 0, n, x, devs)
  {
  }

  lemma {:induction false} LogOfKid(a: Act, i: nat, j: nat, n: seq<byte>, x: seq<byte>, devs: Devices)
    requires Placed(a) && i <= j < |a.kids| && a.kids[j].state.Running? && n in KidZone(a.kids[j])
    ensures HangKidsLog(a, i, n, x, devs) == HangLog(a.kids[j].state.act, n, x, devs)
    decreases j - i
  {
    hide Placed; hide HangLog;
    KidIsPlaced(a, j);
    if i < j {
      KidElsewhere(a, i, n, x, devs);
      LogOfKid(a, i + 1, j, n, x, devs);
    } else {
      NoKidsLog(a, i + 1, n, x, devs);
    }
  }

  /** What process_single_message returns: 0 exactly when the program suspends before its REPLY, and else 1. */
  lemma {:induction false} ServeReturns(p: Prog, r: Req, at: seq<byte>, devs: Devices)
    requires Good(p) && Runnable(p, at, devs) && r.left == -1
    ensures ReturnCode(Suspended(p, r, at, devs).wait) == if Halts(p) then 0 else 1
    decreases p
  {
    hide Process; hide Flat; hide Runnable;
    match p
    case Done(_) => ProcessDone(p, r, at, devs);
    case Do(cmd, rest) =>
      RunnableRest(p, at, devs);
      ProcessDo(p, r, at, devs);
      ServeReturns(rest, r, at, devs);
    case Forward(_, _) => ForwardOpens(r, p, at, devs);
  }

  /** What a node goes on with after a last reply from `x` survives that it closes its connection to `x`. */
  lemma {:induction false} ClearServes(p: Prog, r: Req, at: seq<byte>, x: seq<byte>, devs: Devices)
    requires Good(p) && Runnable(p, at, devs) && r.left == -1 && Clear(p, x)
    ensures var a := Suspended(p, r, at, devs); Hang(a, at, x, devs) == a && HangLog(a, at, x, devs) == []
    decreases p
  {
    hide Process; hide Flat; hide Runnable; hide Severed;
    var a := Suspended(p, r, at, devs);
    match p
    case Done(_) => ProcessDone(p, r, at, devs);
    case Do(cmd, rest) =>
      RunnableRest(p, at, devs);
      ProcessDo(p, r, at, devs);
      if Suspends(cmd) { SeveredMsg(rest, a.req, x); } else { ClearServes(rest, r, at, x, devs); }
    case Forward(ctx, rest) =>
      ForwardOpens(r, p, at, devs);
      SeveredMsg(p, a.req, x);
      GoodDests(ctx, BranchedCtx(ctx));
      assert Dests(ctx)[0] == ctx.dests[0];
      OpenElsewhere(a, p, x, devs);
  }

  lemma {:induction false} OpenElsewhere(a: Act, p: Prog, x: seq<byte>, devs: Devices)
    requires Good(p) && p.Forward? && Runnable(p, a.at, devs) && Clear(p, x) && !Severed(a.req, x)
    requires a.kids == Launch(Owed(p.ctx, BranchedCtx(p.ctx), 0, {}))
    ensures Hang(a, a.at, x, devs) == a && HangLog(a, a.at, x, devs) == []
  {
    hide Owed; hide Flat; hide Msg; hide Severed;
    OwedAt(p.ctx, BranchedCtx(p.ctx), 0);
    forall i | 0 <= i < |a.kids| ensures HangKid(a.kids[i], true, a.at, x, devs) == a.kids[i] {
      assert a.kids[i].to == Host(Dests(p.ctx)[i]);
    }
    assert HangKids(a, 0, a.at, x, devs) == a.kids;
    SentLog(a, 0, a.at, x, devs);
  }

  lemma {:induction false} SentLog(a: Act, i: nat, n: seq<byte>, x: seq<byte>, devs: Devices)
    requires i <= |a.kids| && forall j :: 0 <= j < |a.kids| ==> a.kids[j].state.Sent?
    ensures HangKidsLog(a, i, n, x, devs) == []
    decreases |a.kids| - i
  {
    if i < |a.kids| { SentLog(a, i + 1, n, x, devs); }
  }

  /** In an intact request, whose program keeps apart what it has to, closing a connection changes nothing. */
  lemma {:induction false} StepUnhurt(a: Act, b: Act, evs: seq<Event>, cut: Cut, devs: Devices)
    requires Inv(a, devs) && Intact(a) && Placed(a) && Step(a, b, evs, cut, devs)
    ensures Settled(b, cut, devs) == b && SettleLog(b, cut, devs) == []
    decreases a
  {
    hide Process; hide Flat; hide FindReplyId; hide StorageAck; hide Inv; hide Runnable; hide Served; hide Placed;
    hide Hang; hide HangLog; hide Intact;
    if cut.Cut? {
      var j: nat :|
        j < |a.kids| && (ReplyArrival(a, b, evs, cut, devs, j) || KidStep(a, b, evs, cut, devs, j));
      var k := a.kids[j];
      KidServed(a, devs, j);
      if ReplyArrival(a, b, evs, cut, devs, j) {
        if Completes(a.req, k.to) {
          var rest, r := CompleteServes(a, b, evs, cut, devs, j);
          LastFrom(a, devs, j);
          ClearServes(rest, r, a.at, k.to, devs);
        } else {
          RecordKeepsInv(a, b, evs, cut, devs, j);
        }
      } else {
        var y := InsideKid(a, b, evs, cut, devs, j);
        RunningInv(k, devs);
        KidIsPlaced(a, j);
        KidIntact(a, j);
        StepUnhurt(k.state.act, y, evs, cut, devs);
        StepPlaced(k.state.act, y, evs, cut, devs, KidZone(k));
        KidStaysPlaced(a, j, Running(y));
        HangInside(b, j, cut.at, cut.to, devs);
      }
    }
  }

  lemma {:induction false} NotReplied(a: Act, j: nat)
    requires Intact(a) && j < |a.kids|
    ensures !a.wait.Replied?
  {
  }

  lemma {:induction false} KidIntact(a: Act, j: nat)
    requires Intact(a) && j < |a.kids| && a.kids[j].state.Running?
    ensures Intact(a.kids[j].state.act)
  {
    assert Joined(a.kids[j]);
  }

  lemma {:induction false} LastFrom(a: Act, devs: Devices, j: nat)
    requires Inv(a, devs) && Intact(a) && a.wait.WaitForward? && j < |a.kids|
    ensures ProgOf(a.req.cur).Forward? && Clear(ProgOf(a.req.cur).rest, a.kids[j].to)
  {
    var p := ProgOf(a.req.cur);
    assert KidInv(a.kids[j], p.ctx, j, devs);
    assert a.kids[j].to == Host(Dests(p.ctx)[j]);
    assert ClearOf(p.ctx, p.rest);
  }

  // ---------- the invariant survives whatever is closed ----------

  lemma {:induction false} HangInv(a: Act, n: seq<byte>, x: seq<byte>, devs: Devices)
    requires Inv(a, devs)
    ensures Inv(Hang(a, n, x, devs), devs)
    ensures Live(Hang(a, n, x, devs)) ==> Live(a) && Hang(a, n, x, devs).req == a.req
    decreases a
  {
    hide Flat; hide FailOver; hide Severed; hide IsProg; hide HangKids;
    var b := Hang(a, n, x, devs);
    var kids := HangKids(a, 0, n, x, devs);
    assert b.kids == kids;
    forall i | 0 <= i < |a.kids| ensures Served(kids[i], devs) {
      KidServed(a, devs, i);
      ServedHang(a.kids[i], a.at == n, n, x, devs);
    }
    if Hit(a, n, x) {
      var p := ProgOf(a.req.cur);
      Witness(a.req.cur, a.at, devs);
      FailOverReplies(p, a.req, a.at, devs);
    } else if a.wait.WaitForward? {
      var c := ProgOf(a.req.cur).ctx;
      assert RecordedIds(kids) == RecordedIds(a.kids);
      forall i | 0 <= i < |kids| ensures KidInv(kids[i], c, i, devs) {
        assert KidInv(a.kids[i], c, i, devs);
      }
    }
  }

  lemma {:induction false} ServedHang(k: Kid, here: bool, n: seq<byte>, x: seq<byte>, devs: Devices)
    requires Served(k, devs)
    ensures Served(HangKid(k, here, n, x, devs), devs)
    decreases k
  {
    hide Hang;
    if k.state.Running? { HangInv(k.state.act, n, x, devs); }
  }

  lemma {:induction false} HangPlaced(a: Act, n: seq<byte>, x: seq<byte>, devs: Devices, z: set<seq<byte>>)
    requires Inv(a, devs) && Placed(a) && Roams(a, z)
    ensures Placed(Hang(a, n, x, devs)) && Roams(Hang(a, n, x, devs), z)
    decreases a
  {
    hide Flat; hide FailOver; hide Severed; hide IsProg; hide HangKids; hide Inv; hide KidPlaced;
    var b := Hang(a, n, x, devs);
    var kids := HangKids(a, 0, n, x, devs);
    assert b.kids == kids && forall i :: 0 <= i < |a.kids| ==> KidZone(kids[i]) == KidZone(a.kids[i]);
    HangInv(a, n, x, devs);
    forall i | 0 <= i < |a.kids| ensures KidPlaced(kids[i]) {
      KidServed(a, devs, i);
      assert KidPlaced(a.kids[i]);
      PlacedHang(a.kids[i], a.at == n, n, x, devs);
    }
  }

  lemma {:induction false} PlacedHang(k: Kid, here: bool, n: seq<byte>, x: seq<byte>, devs: Devices)
    requires Served(k, devs) && KidPlaced(k)
    ensures KidPlaced(HangKid(k, here, n, x, devs))
    decreases k
  {
    hide Hang; hide Inv;
    if k.state.Running? {
      RunningInv(k, devs);
      HangPlaced(k.state.act, n, x, devs, KidZone(k));
    }
  }

  /** What every state of every run satisfies, for requests on the nodes `z`. */
  ghost predicate Steady(a: Act, devs: Devices, z: set<seq<byte>>) {
    Inv(a, devs) && Placed(a) && Roams(a, z)
  }

  lemma {:induction false} ServeSteady(p: Prog, r: Req, at: seq<byte>, devs: Devices, z: set<seq<byte>>)
    requires Good(p) && Runnable(p, at, devs) && r.left == -1 && at in z && NodesOf(p) <= z
    ensures Steady(Suspended(p, r, at, devs), devs, z)
  {
    hide Suspended; hide Runnable; hide Inv; hide Placed; hide Roams;
    ServeInv(p, r, at, devs);
    ServePlaced(p, r, at, devs, z);
  }

  lemma {:induction false} WholeSteady(a: Act, b: Act, evs: seq<Event>, devs: Devices, z: set<seq<byte>>)
    requires Steady(a, devs, z) && Whole(a, b, evs, devs)
    ensures Steady(b, devs, z) && b.at == a.at
  {
    hide Step; hide Inv; hide Placed; hide Roams; hide Hang; hide HangLog;
    var a1, evs1, cut :|
      Step(a, a1, evs1, cut, devs) && b == Settled(a1, cut, devs) && evs == evs1 + SettleLog(a1, cut, devs);
    StepInv(a, a1, evs1, cut, devs);
    StepPlaced(a, a1, evs1, cut, devs, z);
    if cut.Cut? {
      HangInv(a1, cut.at, cut.to, devs);
      HangPlaced(a1, cut.at, cut.to, devs, z);
    }
  }

  /** A step of an intact request, and what comes of the connection it closes. */
  lemma {:induction false} WholeSound(a: Act, b: Act, evs: seq<Event>, devs: Devices, z: set<seq<byte>>)
    requires Steady(a, devs, z) && Intact(a) && Whole(a, b, evs, devs)
    ensures Steady(b, devs, z) && Sound(a, b, evs)
  {
    hide Step; hide Inv; hide Placed; hide Roams; hide Hang; hide HangLog; hide Intact; hide Settled; hide SettleLog;
    var a1, evs1, cut :|
      Step(a, a1, evs1, cut, devs) && b == Settled(a1, cut, devs) && evs == evs1 + SettleLog(a1, cut, devs);
    WholeSteady(a, b, evs, devs, z);
    StepUnhurt(a, a1, evs1, cut, devs);
    StepSound(a, a1, evs1, cut, devs);
    assert evs1 + [] == evs1;
  }

  // ---------- whole runs ----------

  /** `states` are the states of a run, `logs` the commands executed by each of its steps. */
  ghost predicate Run(states: seq<Act>, logs: seq<seq<Event>>, devs: Devices) {
    && |states| == |logs| + 1
    && forall i :: 0 <= i < |logs| ==> Whole(states[i], states[i + 1], logs[i], devs)
  }

  function Concat(logs: seq<seq<Event>>): seq<Event> {
    if logs == [] then [] else logs[0] + Concat(logs[1..])
  }

  lemma {:induction false} RunRest(states: seq<Act>, logs: seq<seq<Event>>, devs: Devices)
    requires Run(states, logs, devs) && logs != []
    ensures Whole(states[0], states[1], logs[0], devs) && Run(states[1..], logs[1..], devs)
  {
    hide Whole;
    var s1, l1 := states[1..], logs[1..];
    forall i | 0 <= i < |l1| ensures Whole(s1[i], s1[i + 1], l1[i], devs) {
      assert Whole(states[i + 1], states[i + 2], logs[i + 1], devs);
    }
  }

  lemma {:induction false} RunSound(states: seq<Act>, logs: seq<seq<Event>>, devs: Devices, z: set<seq<byte>>)
    requires Run(states, logs, devs) && Steady(states[0], devs, z) && Intact(states[0])
    ensures Steady(states[|logs|], devs, z) && Intact(states[|logs|])
    ensures |logs| + Work(states[|logs|]) <= Work(states[0])
    ensures forall m :: Rest(states[|logs|], m) ==> Rest(states[0], Concat(logs) + m)
    decreases |logs|
  {
    hide Whole; hide Rest; hide Steady; hide Work; hide Intact;
    if logs == [] {
      assert forall m: seq<Event> :: Concat(logs) + m == m;
    } else {
      RunRest(states, logs, devs);
      WholeSound(states[0], states[1], logs[0], devs, z);
      var l1 := logs[1..];
      RunSound(states[1..], l1, devs, z);
      forall m | Rest(states[|logs|], m) ensures Rest(states[0], Concat(logs) + m) {
        assert Rest(states[1], Concat(l1) + m);
        assert logs[0] + (Concat(l1) + m) == Concat(logs) + m;
      }
    }
  }

  /** The state of a node that has just served message `p` until it first suspends, and what it logged. */
  function Start(p: Prog, slot: Req, status: nat, at: seq<byte>, devs: Devices): Act {
    Suspended(p, NewReq(slot, status, Msg(p)), at, devs)
  }

  function StartLog(p: Prog, slot: Req, status: nat, at: seq<byte>, devs: Devices): seq<Event> {
    Logged(p, NewReq(slot, status, Msg(p)), at, devs)
  }

  /** Distributed meaning. If the program keeps apart the contexts that a closed connection would hurt, then
      however deliveries, storage acknowledgements and replies interleave, a request for program `p` sent to node
      `at` takes fewer than Weight(p) steps, is never stuck before its reply, and once it is answered the commands
      executed all over the network form a log of the tree `p`. */
  lemma {:induction false} DistributedMeaning(p: Prog, slot: Req, status: nat, at: seq<byte>, devs: Devices,
                                              states: seq<Act>, logs: seq<seq<Event>>)
    requires Good(p) && Runnable(p, at, devs) && Apart(p)
    requires Run(states, logs, devs) && states[0] == Start(p, slot, status, at, devs)
    ensures |states| == |logs| + 1 && |logs| < Weight(p)
    ensures var last := states[|logs|];
      if last.wait.Replied? then Meaning(p, at, StartLog(p, slot, status, at, devs) + Concat(logs))
      else exists b, evs :: Whole(last, b, evs, devs)
  {
    hide Process; hide Flat; hide Meaning; hide Step; hide Inv; hide Placed; hide Roams; hide Runnable; hide Intact;
    hide Work; hide Hang; hide HangLog;
    var r := NewReq(slot, status, Msg(p));
    var last := states[|logs|];
    var z := {at} + NodesOf(p);
    ServeSteady(p, r, at, devs, z);
    ServeIntact(p, r, at, devs);
    ServeWork(p, r, at, devs);
    RunSound(states, logs, devs, z);
    if last.wait.Replied? {
      RestOfReplied(last);
      assert Concat(logs) + [] == Concat(logs);
      ServeRest(p, r, at, devs, Concat(logs));
    } else {
      Progress(last, devs);
      var b, evs, cut :| Step(last, b, evs, cut, devs);
      assert Whole(last, Settled(b, cut, devs), evs + SettleLog(b, cut, devs), devs);
    }
  }
}
